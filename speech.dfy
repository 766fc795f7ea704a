/**
 * The speech-synthesis hook: which voice it prefers, when `speak` produces an
 * utterance, and how the `speaking` flag follows the utterance's events.
 * The browser's speech engine itself is not modelled; the voices it lists, whether
 * it exists at all, and the events it fires are inputs.
 */
module Speech {
  import opened Wrappers
  import Seqs

  /** A `SpeechSynthesisVoice`, reduced to what the selection rule reads. */
  datatype Voice = Voice(name: string, lang: string, localService: bool)

  /** A `SpeechSynthesisUtterance` as `speak` configures it. */
  datatype Utterance = Utterance(text: string, voice: Voice, lang: string, pitch: int, rate: int)

  /** The preferred kind of voice: United States English, rendered on the device. */
  predicate IsLocalUsEnglish(v: Voice)
  {
    v.lang == "en-US" && v.localService
  }

  /** `v.lang.startsWith('en-')`. */
  predicate IsEnglish(v: Voice)
  {
    |v.lang| >= 3 && v.lang[..3] == "en-"
  }

  /**
   * The voice `setEnglishVoice` settles on, if any: the first local `en-US` voice,
   * otherwise the first voice whose language starts with `en-`.
   */
  function PreferredVoice(voices: seq<Voice>): (r: Option<Voice>)
    ensures (exists i :: 0 <= i < |voices| && IsLocalUsEnglish(voices[i])) ==>
      r.Some? && exists i :: Seqs.FirstWith(voices, IsLocalUsEnglish, i) && voices[i] == r.value
    ensures (forall v :: v in voices ==> !IsLocalUsEnglish(v)) && r.Some? ==>
      exists i :: Seqs.FirstWith(voices, IsEnglish, i) && voices[i] == r.value
    ensures r.None? <==> forall v :: v in voices ==> !IsEnglish(v)
  {
    var local := Seqs.Find(voices, IsLocalUsEnglish);
    if local.Some? then local else Seqs.Find(voices, IsEnglish)
  }

  /** The state of one instance of the hook. */
  class SpeechSynthesis {
    var speaking: bool
    var supported: bool
    var voice: Option<Voice>

    /** The state before the hook's effect has run. */
    constructor ()
      ensures !speaking && !supported && voice == None
    {
      speaking := false;
      supported := false;
      voice := None;
    }

    /**
     * The mount effect: when the browser offers speech synthesis (`available`) the
     * hook becomes supported and picks a voice from those listed; otherwise nothing changes.
     */
    method Mount(available: bool, voices: seq<Voice>)
      modifies this`supported, this`voice
      ensures available ==> supported
      ensures available ==> voice == if PreferredVoice(voices).Some? then PreferredVoice(voices) else old(voice)
      ensures !available ==> supported == old(supported) && voice == old(voice)
    {
      if available {
        supported := true;
        SetEnglishVoice(voices);
      }
    }

    /**
     * `setEnglishVoice`, run at mount and on every `voiceschanged` event: adopt the
     * preferred voice if there is one, and otherwise keep the voice already chosen.
     */
    method SetEnglishVoice(voices: seq<Voice>)
      modifies this`voice
      ensures PreferredVoice(voices).Some? ==> voice == PreferredVoice(voices)
      ensures PreferredVoice(voices).None? ==> voice == old(voice)
    {
      var chosen := PreferredVoice(voices);
      if chosen.Some? {
        voice := chosen;
      }
    }

    /**
     * `speak(text)`: without support or without a voice it does nothing; otherwise it
     * hands the engine an utterance of `text` in the chosen voice at pitch and rate 1.
     * The flag does not change here; it follows the utterance's events.
     */
    method Speak(text: string) returns (u: Option<Utterance>)
      ensures u.None? <==> !supported || voice.None?
      ensures u.Some? ==> u.value.text == text && Some(u.value.voice) == voice
      ensures u.Some? ==> u.value.lang == u.value.voice.lang && u.value.pitch == 1 && u.value.rate == 1
    {
      if !supported || voice.None? {
        return None;
      }
      var v := voice.value;
      u := Some(Utterance(text, v, v.lang, 1, 1));
    }

    /** The utterance's `start` event. */
    method OnStart()
      modifies this`speaking
      ensures speaking
    {
      speaking := true;
    }

    /** The utterance's `end` event. */
    method OnEnd()
      modifies this`speaking
      ensures !speaking
    {
      speaking := false;
    }

    /** The utterance's `error` event. */
    method OnError()
      modifies this`speaking
      ensures !speaking
    {
      speaking := false;
    }
  }
}
