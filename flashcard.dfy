/**
 * One flashcard: a two-sided toggle (front shows the word, back the translation)
 * whose flips are dropped while its own speech hook is speaking.
 */
module Card {
  import opened Wrappers
  import opened Types
  import opened Speech

  /** The side a card shows. */
  datatype Face = Front | Back

  function FaceOf(isFlipped: bool): Face
  {
    if isFlipped then Back else Front
  }

  /** The `isFlipped` value after a flip request, given whether speech is in progress. */
  function AfterFlip(isFlipped: bool, speaking: bool): (r: bool)
    ensures speaking ==> FaceOf(r) == FaceOf(isFlipped)
    ensures !speaking ==> FaceOf(r) != FaceOf(isFlipped)
  {
    if speaking then isFlipped else !isFlipped
  }

  /** Two flips with no speech in between bring the card back to the side it showed. */
  lemma FlipTwiceRestores(isFlipped: bool)
    ensures AfterFlip(AfterFlip(isFlipped, false), false) == isFlipped
  {
  }

  class Flashcard {
    var word: VocabularyWord
    var isFlipped: bool
    const speech: SpeechSynthesis

    /** A freshly mounted card shows its front and has a fresh speech hook. */
    constructor (word: VocabularyWord)
      ensures this.word == word && FaceOf(isFlipped) == Front
      ensures fresh(speech) && !speech.speaking && !speech.supported && speech.voice == None
    {
      this.word := word;
      isFlipped := false;
      speech := new SpeechSynthesis();
    }

    /** `handleFlip`, the click handler of both faces. */
    method HandleFlip()
      modifies this`isFlipped
      ensures isFlipped == AfterFlip(old(isFlipped), speech.speaking)
    {
      if speech.speaking {
        return;
      }
      isFlipped := !isFlipped;
    }

    /** The imperative `flip()` handle the deck calls; it runs `handleFlip`. */
    method Flip()
      modifies this`isFlipped
      ensures isFlipped == AfterFlip(old(isFlipped), speech.speaking)
    {
      HandleFlip();
    }

    /**
     * A click on a speaker button (for the word, or for the example sentence when
     * `sentence` holds). The button is rendered only when speech is supported and is
     * disabled while speaking; the click never flips the card.
     */
    method ClickSpeaker(sentence: bool) returns (u: Option<Utterance>)
      ensures u.Some? ==> speech.supported && !speech.speaking && Some(u.value.voice) == speech.voice
      ensures u.Some? ==> u.value.text == if sentence then word.sentence else word.word
      ensures speech.supported && !speech.speaking && speech.voice.Some? ==> u.Some?
    {
      if !speech.supported || speech.speaking {
        return None;
      }
      u := speech.Speak(if sentence then word.sentence else word.word);
    }
  }
}
