/**
 * The application shell's state: the profession, the generated vocabulary, the
 * persisted saved-word list, the loading flag and the error message, with the
 * handlers that change them.
 *
 * The two generation handlers await a call to the remote generator. Each is
 * modelled as the transition up to the call (`Begin…`, which returns the request
 * the call is made with) and the transition once the call has settled (`End…`,
 * which receives what the call returned or threw), so that the state observable
 * while the call is outstanding is part of the model.
 */
module AppState {
  import opened Wrappers
  import opened Types
  import opened SavedWords

  /** What a failed call threw: an `Error` object with its message, or any other value. */
  datatype Thrown = ErrorObject(message: string) | OtherValue

  /** The message shown for a failed call. */
  function ErrorText(t: Thrown): string
  {
    match t
    case ErrorObject(m) => m
    case OtherValue => "An unknown error occurred."
  }

  /** A request to the vocabulary generator: the profession and the words to exclude. */
  datatype GenerateRequest = GenerateRequest(profession: string, exclude: seq<string>)

  class App {
    var profession: string
    var vocabulary: seq<VocabularyWord>
    var myWords: seq<VocabularyWord>
    var isLoading: bool
    var error: Option<string>

    /** The initial state; `stored` is what the persisted slot holds (empty when absent). */
    constructor (stored: seq<VocabularyWord>)
      ensures profession == "" && vocabulary == [] && myWords == stored
      ensures !isLoading && error == None
    {
      profession := "";
      vocabulary := [];
      myWords := stored;
      isLoading := false;
      error := None;
    }

    /** `isWordSaved` over the current saved list. */
    function Saved(word: VocabularyWord): bool
      reads this
    {
      IsWordSaved(myWords, word)
    }

    /** `toggleSaveWord`. */
    method ToggleSave(word: VocabularyWord)
      modifies this`myWords
      ensures myWords == ToggleSaveWord(old(myWords), word)
      ensures !old(Saved(word)) ==> myWords == old(myWords) + [word]
      ensures old(Saved(word)) ==> !Saved(word)
      ensures NoDuplicates(old(myWords)) ==> NoDuplicates(myWords)
    {
      ghost var before := myWords;
      if Saved(word) {
        myWords := RemoveWord(myWords, word);
        RemoveWordExact(before, word);
      } else {
        myWords := myWords + [word];
      }
      if NoDuplicates(before) {
        ToggleKeepsNoDuplicates(before, word);
      }
    }

    /** `removeWordFromMyWords`. */
    method Remove(word: VocabularyWord)
      modifies this`myWords
      ensures myWords == RemoveWord(old(myWords), word)
      ensures forall w :: w in myWords <==> w in old(myWords) && !SameWord(w, word)
    {
      RemoveWordExact(myWords, word);
      myWords := RemoveWord(myWords, word);
    }

    /**
     * `handleGenerate` up to the generator call: the profession is replaced, the
     * vocabulary and the error are cleared, loading starts, and the request
     * excludes exactly the saved words.
     */
    method BeginGenerate(newProfession: string) returns (request: GenerateRequest)
      modifies this`profession, this`vocabulary, this`error, this`isLoading
      ensures profession == newProfession && vocabulary == [] && error == None && isLoading
      ensures request == GenerateRequest(newProfession, WordsOf(myWords))
    {
      profession := newProfession;
      vocabulary := [];
      error := None;
      isLoading := true;
      request := GenerateRequest(newProfession, WordsOf(myWords));
    }

    /**
     * `handleGenerate` once the call has settled: on success the vocabulary becomes
     * the new words, on failure the error message is set; loading ends either way.
     */
    method EndGenerate(reply: Result<seq<VocabularyWord>, Thrown>)
      modifies this`vocabulary, this`error, this`isLoading
      ensures !isLoading
      ensures reply.Success? ==> vocabulary == reply.value && error == old(error)
      ensures reply.Failure? ==> vocabulary == old(vocabulary) && error == Some(ErrorText(reply.error))
    {
      match reply {
        case Success(words) => vocabulary := words;
        case Failure(t) => error := Some(ErrorText(t));
      }
      isLoading := false;
    }

    /**
     * `handleLoadMore` up to the generator call. With no profession it does nothing
     * and makes no request; otherwise it clears the error, starts loading and asks
     * for words excluding the saved words followed by the current vocabulary.
     */
    method BeginLoadMore() returns (request: Option<GenerateRequest>)
      modifies this`error, this`isLoading
      ensures old(profession) == "" ==> request == None && error == old(error) && isLoading == old(isLoading)
      ensures old(profession) != "" ==> error == None && isLoading
      ensures old(profession) != "" ==>
        request == Some(GenerateRequest(profession, WordsOf(myWords) + WordsOf(vocabulary)))
    {
      if profession == "" {
        return None;
      }
      error := None;
      isLoading := true;
      WordsOfConcat(myWords, vocabulary);
      request := Some(GenerateRequest(profession, WordsOf(myWords + vocabulary)));
    }

    /**
     * `handleLoadMore` once the call has settled: on success the new words are
     * appended after the vocabulary as it is then; on failure the error is set;
     * loading ends either way.
     */
    method EndLoadMore(reply: Result<seq<VocabularyWord>, Thrown>)
      modifies this`vocabulary, this`error, this`isLoading
      ensures !isLoading
      ensures reply.Success? ==> vocabulary == old(vocabulary) + reply.value && error == old(error)
      ensures reply.Failure? ==> vocabulary == old(vocabulary) && error == Some(ErrorText(reply.error))
    {
      match reply {
        case Success(words) => vocabulary := vocabulary + words;
        case Failure(t) => error := Some(ErrorText(t));
      }
      isLoading := false;
    }
  }
}
