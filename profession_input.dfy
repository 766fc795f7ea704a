/**
 * The profession form: a text field and a submit button. Submitting hands the
 * trimmed text to the generator unless the text is blank or a request is running.
 */
module ProfessionForm {
  import opened Wrappers

  /**
   * The code points `String.prototype.trim` removes: the ECMAScript WhiteSpace
   * characters (tab, vertical tab, form feed, space, no-break space, the byte-order
   * mark and the other space separators) and the LineTerminator characters.
   */
  predicate IsTrimmable(c: char)
  {
    c in {'\t', '\U{000B}', '\U{000C}', ' ', '\U{00A0}', '\U{FEFF}',
          '\U{1680}', '\U{2000}', '\U{2001}', '\U{2002}', '\U{2003}', '\U{2004}',
          '\U{2005}', '\U{2006}', '\U{2007}', '\U{2008}', '\U{2009}', '\U{200A}',
          '\U{202F}', '\U{205F}', '\U{3000}',
          '\n', '\r', '\U{2028}', '\U{2029}'}
  }

  /** The number of trimmable characters at the start of `s`. */
  function LeadingBlanks(s: string): (n: nat)
    ensures n <= |s|
    ensures forall k :: 0 <= k < n ==> IsTrimmable(s[k])
    ensures n < |s| ==> !IsTrimmable(s[n])
  {
    if s != [] && IsTrimmable(s[0]) then 1 + LeadingBlanks(s[1..]) else 0
  }

  /** The length of `s` without the trimmable characters at its end. */
  function EndOfText(s: string): (m: nat)
    ensures m <= |s|
    ensures forall k :: m <= k < |s| ==> IsTrimmable(s[k])
    ensures m > 0 ==> !IsTrimmable(s[m - 1])
  {
    if s != [] && IsTrimmable(s[|s| - 1]) then EndOfText(s[..|s| - 1]) else |s|
  }

  /** `s.trim()`. */
  function Trim(s: string): (r: string)
    ensures r == [] <==> forall k :: 0 <= k < |s| ==> IsTrimmable(s[k])
    ensures r != [] ==> !IsTrimmable(r[0]) && !IsTrimmable(r[|r| - 1])
    ensures exists i :: Stripped(s, i, r)
  {
    var i, m := LeadingBlanks(s), EndOfText(s);
    if i == |s| then
      assert Stripped(s, |s|, []);
      []
    else
      assert i < m && Stripped(s, i, s[i..m]);
      s[i..m]
  }

  /** `r` is `s` with only trimmable characters removed, `i` of them before `r`. */
  ghost predicate Stripped(s: string, i: int, r: string)
  {
    && 0 <= i <= |s| - |r|
    && r == s[i..i + |r|]
    && (forall k :: 0 <= k < i ==> IsTrimmable(s[k]))
    && (forall k :: i + |r| <= k < |s| ==> IsTrimmable(s[k]))
  }

  /** Trimming what is already trimmed changes nothing. */
  lemma TrimIdempotent(s: string)
    ensures Trim(Trim(s)) == Trim(s)
  {
    var t := Trim(s);
    if t != [] {
      assert LeadingBlanks(t) == 0;
      assert EndOfText(t) == |t|;
    }
  }

  /** The submit handler's guard: the trimmed text is non-empty and nothing is loading. */
  predicate SubmitAccepted(profession: string, isLoading: bool)
  {
    Trim(profession) != [] && !isLoading
  }

  /** The submit button's `disabled` attribute. */
  function ButtonDisabled(profession: string, isLoading: bool): (b: bool)
    ensures b <==> !SubmitAccepted(profession, isLoading)
  {
    isLoading || Trim(profession) == []
  }

  class ProfessionInput {
    var profession: string

    constructor ()
      ensures profession == ""
    {
      profession := "";
    }

    /** The field's `onChange`: the text becomes what was typed. */
    method OnChange(value: string)
      modifies this`profession
      ensures profession == value
    {
      profession := value;
    }

    /**
     * `handleSubmit`. The result is the argument `onGenerate` is called with, or
     * `None` when it is not called.
     */
    method HandleSubmit(isLoading: bool) returns (generated: Option<string>)
      ensures generated.Some? <==> SubmitAccepted(profession, isLoading)
      ensures isLoading ==> generated == None
      ensures generated.Some? ==> generated.value == Trim(profession) && generated.value != []
      ensures generated.Some? ==> !IsTrimmable(generated.value[0]) && !IsTrimmable(generated.value[|generated.value| - 1])
    {
      var trimmed := Trim(profession);
      if trimmed != [] && !isLoading {
        generated := Some(trimmed);
      } else {
        generated := None;
      }
    }
  }
}
