/** The records of the application's data model. */
module Types {

  /** A vocabulary entry. Its identity key is `word`. */
  datatype VocabularyWord = VocabularyWord(word: string, translation: string, sentence: string)

  /** One text in English and its Turkish translation. */
  datatype BilingualContent = BilingualContent(en: string, tr: string)

  /** The elaborated record the detail view shows for one word. */
  datatype WordDetails = WordDetails(
    definition: BilingualContent,
    synonyms: seq<string>,
    antonyms: seq<string>,
    examples: seq<BilingualContent>,
    collocations: BilingualContent)

  /** The identity key of an entry, compared exactly. */
  function WordKey(w: VocabularyWord): string
  {
    w.word
  }
}
