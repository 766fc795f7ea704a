/**
 * The flashcard deck of the saved-words view. It keeps its own display order of
 * the saved words (which a shuffle may have rearranged) and a current index, and
 * keeps both consistent with the saved list the shell passes in.
 */
module Deck {
  import opened Types
  import Seqs
  import Card

  // ---------------------------------------------------------------------------
  // Reconciling the display order with the saved list

  /** `new Set(ws.map(w => w.word))`: the exact keys present in a list. */
  function Keys(ws: seq<VocabularyWord>): set<string>
  {
    set w | w in ws :: w.word
  }

  /** The predicate `dw => keys.has(dw.word)`. */
  function InKeys(keys: set<string>): VocabularyWord -> bool
  {
    (w: VocabularyWord) => w.word in keys
  }

  /** The predicate `w => !keys.has(w.word)`. */
  function NotInKeys(keys: set<string>): VocabularyWord -> bool
  {
    (w: VocabularyWord) => w.word !in keys
  }

  /** The displayed entries whose key is still in the saved list. */
  function Retained(displayed: seq<VocabularyWord>, words: seq<VocabularyWord>): seq<VocabularyWord>
  {
    Seqs.Filter(displayed, InKeys(Keys(words)))
  }

  /** The saved entries whose key is not among the retained ones. */
  function Added(displayed: seq<VocabularyWord>, words: seq<VocabularyWord>): seq<VocabularyWord>
  {
    Seqs.Filter(words, NotInKeys(Keys(Retained(displayed, words))))
  }

  /** The new display order: the retained entries, then the added ones. */
  function Reconcile(displayed: seq<VocabularyWord>, words: seq<VocabularyWord>): seq<VocabularyWord>
  {
    Retained(displayed, words) + Added(displayed, words)
  }

  lemma KeysConcat(a: seq<VocabularyWord>, b: seq<VocabularyWord>)
    ensures Keys(a + b) == Keys(a) + Keys(b)
  {
    assert forall w :: w in a + b <==> w in a || w in b;
  }

  /**
   * What each part of the new order holds, stated against the inputs: the retained
   * part is exactly the displayed entries whose key is saved, in their displayed
   * order; the added part is exactly the saved entries whose key was not displayed,
   * in saved-list order.
   */
  lemma ReconcileParts(displayed: seq<VocabularyWord>, words: seq<VocabularyWord>)
    ensures forall w :: w in Retained(displayed, words) <==> w in displayed && w.word in Keys(words)
    ensures forall w :: w in Added(displayed, words) <==> w in words && w.word !in Keys(displayed)
    ensures Seqs.IsSubsequence(Retained(displayed, words), displayed)
    ensures Seqs.IsSubsequence(Added(displayed, words), words)
    ensures Reconcile(displayed, words)[..|Retained(displayed, words)|] == Retained(displayed, words)
  {
    var kept := Retained(displayed, words);
    Seqs.FilterIsSubsequence(displayed, InKeys(Keys(words)));
    Seqs.FilterIsSubsequence(words, NotInKeys(Keys(kept)));
    forall w | w in words
      ensures w.word in Keys(kept) <==> w.word in Keys(displayed)
    {
      if w.word in Keys(displayed) {
        var d :| d in displayed && d.word == w.word;
        assert d in kept;
      }
    }
  }

  /**
   * After reconciling, the display order holds exactly the saved keys: no entry
   * whose key was removed, and every saved key present.
   */
  lemma ReconcileKeys(displayed: seq<VocabularyWord>, words: seq<VocabularyWord>)
    ensures Keys(Reconcile(displayed, words)) == Keys(words)
  {
    ReconcileParts(displayed, words);
    var kept, added := Retained(displayed, words), Added(displayed, words);
    KeysConcat(kept, added);
    forall k | k in Keys(words) ensures k in Keys(kept) + Keys(added) {
      var w :| w in words && w.word == k;
      if k !in Keys(kept) {
        assert w in added;
      }
    }
  }

  /** An order that already holds exactly the saved keys is left as it is. */
  lemma ReconcileFixed(displayed: seq<VocabularyWord>, words: seq<VocabularyWord>)
    requires Keys(displayed) == Keys(words)
    ensures Reconcile(displayed, words) == displayed
  {
    Seqs.FilterKeepsAll(displayed, InKeys(Keys(words)));
    ReconcileParts(displayed, words);
    Seqs.FilterDropsAll(words, NotInKeys(Keys(displayed)));
  }

  /** Reconciling twice against the same saved list is reconciling once. */
  lemma ReconcileIdempotent(displayed: seq<VocabularyWord>, words: seq<VocabularyWord>)
    ensures Reconcile(Reconcile(displayed, words), words) == Reconcile(displayed, words)
  {
    ReconcileKeys(displayed, words);
    ReconcileFixed(Reconcile(displayed, words), words);
  }

  /** A list without repeated keys has as many keys as entries. */
  lemma {:induction false} UniqueKeysCount(ws: seq<VocabularyWord>)
    requires Seqs.Unique(ws, WordKey)
    ensures |Keys(ws)| == |ws|
  {
    if ws != [] {
      var t := ws[1..];
      assert Seqs.Unique(t, WordKey) by {
        forall i, j | 0 <= i < j < |t| ensures WordKey(t[i]) != WordKey(t[j]) {
          assert t[i] == ws[i + 1] && t[j] == ws[j + 1];
        }
      }
      UniqueKeysCount(t);
      assert ws[0].word !in Keys(t);
      assert Keys(ws) == {ws[0].word} + Keys(t) by {
        assert forall w :: w in ws <==> w == ws[0] || w in t;
      }
    }
  }

  /** A list never has more keys than entries. */
  lemma {:induction false} KeysBound(ws: seq<VocabularyWord>)
    ensures |Keys(ws)| <= |ws|
  {
    if ws != [] {
      var t := ws[1..];
      KeysBound(t);
      assert Keys(ws) == {ws[0].word} + Keys(t) by {
        assert forall w :: w in ws <==> w == ws[0] || w in t;
      }
    }
  }

  /** Two entries sharing a key leave the list with fewer keys than entries. */
  lemma RepeatShrinksKeys(ws: seq<VocabularyWord>, i: int, j: int)
    requires 0 <= i < j < |ws| && WordKey(ws[i]) == WordKey(ws[j])
    ensures |Keys(ws)| < |ws|
  {
    var rest := ws[..j] + ws[j + 1..];
    forall k | k in Keys(ws) ensures k in Keys(rest) {
      var m :| 0 <= m < |ws| && ws[m].word == k;
      if m == j {
        assert ws[i] == rest[i];
      } else if m < j {
        assert ws[m] == rest[m];
      } else {
        assert ws[m] == rest[m - 1];
      }
    }
    forall k | k in Keys(rest) ensures k in Keys(ws) {
      var w :| w in rest && w.word == k;
      assert w in ws[..j] || w in ws[j + 1..];
    }
    assert Keys(ws) == Keys(rest);
    KeysBound(rest);
  }

  /** A list with as many keys as entries repeats no key. */
  lemma KeysCountUnique(ws: seq<VocabularyWord>)
    requires |Keys(ws)| == |ws|
    ensures Seqs.Unique(ws, WordKey)
  {
    forall i, j | 0 <= i < j < |ws| ensures WordKey(ws[i]) != WordKey(ws[j]) {
      if WordKey(ws[i]) == WordKey(ws[j]) {
        RepeatShrinksKeys(ws, i, j);
      }
    }
  }

  /** Rearranging a deck keeps its key set and whether it repeats a key. */
  lemma PermutationKeys(a: seq<VocabularyWord>, b: seq<VocabularyWord>)
    requires multiset(a) == multiset(b)
    ensures Keys(a) == Keys(b)
    ensures Seqs.Unique(a, WordKey) <==> Seqs.Unique(b, WordKey)
  {
    forall k ensures k in Keys(a) <==> k in Keys(b) {
      if k in Keys(a) {
        var w :| w in a && w.word == k;
        assert w in multiset(b);
      }
      if k in Keys(b) {
        var w :| w in b && w.word == k;
        assert w in multiset(a);
      }
    }
    assert Keys(a) == Keys(b);
    assert |a| == |multiset(a)| == |multiset(b)| == |b|;
    if Seqs.Unique(a, WordKey) {
      UniqueKeysCount(a);
      KeysCountUnique(b);
    }
    if Seqs.Unique(b, WordKey) {
      UniqueKeysCount(b);
      KeysCountUnique(a);
    }
  }

  /**
   * When neither list repeats a key, neither does the new order, and it is exactly
   * as long as the saved list.
   */
  lemma ReconcileUnique(displayed: seq<VocabularyWord>, words: seq<VocabularyWord>)
    requires Seqs.Unique(displayed, WordKey) && Seqs.Unique(words, WordKey)
    ensures Seqs.Unique(Reconcile(displayed, words), WordKey)
    ensures |Reconcile(displayed, words)| == |words|
  {
    var kept, added := Retained(displayed, words), Added(displayed, words);
    var r := Reconcile(displayed, words);
    Seqs.FilterKeepsUnique(displayed, InKeys(Keys(words)), WordKey);
    Seqs.FilterKeepsUnique(words, NotInKeys(Keys(kept)), WordKey);
    forall i, j | 0 <= i < j < |r| ensures WordKey(r[i]) != WordKey(r[j]) {
      if i < |kept| && j >= |kept| {
        assert r[i] == kept[i] && r[i].word in Keys(kept);
        assert r[j] == added[j - |kept|] && r[j] in added;
      } else if i >= |kept| {
        assert r[i] == added[i - |kept|] && r[j] == added[j - |kept|];
      }
    }
    UniqueKeysCount(r);
    UniqueKeysCount(words);
    ReconcileKeys(displayed, words);
  }

  // ---------------------------------------------------------------------------
  // The current index

  /** The index repair after the saved list changed to one of length `n`. */
  function RepairIndex(i: int, n: nat): (r: int)
    ensures n > 0 && i >= 0 ==> 0 <= r < n
    ensures n > 0 && i >= n ==> r == n - 1
    ensures n == 0 ==> r == 0
    ensures 0 <= i < n ==> r == i
  {
    if i >= n && n > 0 then n - 1
    else if n == 0 then 0
    else i
  }

  /** `goToNext` on a deck of `n` cards. */
  function Next(i: int, n: nat): (r: int)
    ensures n == 0 ==> r == i
    ensures 0 <= i < n ==> r == (i + 1) % n
  {
    if n == 0 then i
    else if i == n - 1 then 0
    else i + 1
  }

  /** `goToPrevious` on a deck of `n` cards. */
  function Prev(i: int, n: nat): (r: int)
    ensures n == 0 ==> r == i
    ensures 0 <= i < n ==> r == (i + n - 1) % n
  {
    if n == 0 then i
    else if i == 0 then n - 1
    else i - 1
  }

  /** Next and previous are inverse on a non-empty deck. */
  lemma NextPrevInverse(i: int, n: nat)
    requires 0 <= i < n
    ensures Prev(Next(i, n), n) == i && Next(Prev(i, n), n) == i
  {
  }

  // ---------------------------------------------------------------------------
  // Shuffling

  /** `Math.floor(Math.random() * (i + 1))` for a draw in [0, 1): an index in [0, i]. */
  function Pick(draw: real, i: nat): (j: nat)
    requires 0.0 <= draw < 1.0
    ensures j <= i
  {
    PickBounds(draw, i);
    (draw * (i + 1) as real).Floor
  }

  lemma PickBounds(draw: real, i: nat)
    requires 0.0 <= draw < 1.0
    ensures 0.0 <= draw * (i + 1) as real < (i + 1) as real
  {
  }

  /** Every draw in a list of `Math.random()` results lies in [0, 1). */
  ghost predicate ValidDraws(draws: seq<real>)
  {
    forall k :: 0 <= k < |draws| ==> 0.0 <= draws[k] < 1.0
  }

  /** `s` with the elements at `i` and `j` exchanged. */
  function Swap<T>(s: seq<T>, i: nat, j: nat): (r: seq<T>)
    requires i < |s| && j < |s|
    ensures |r| == |s| && r[i] == s[j] && r[j] == s[i]
    ensures forall k :: 0 <= k < |s| && k != i && k != j ==> r[k] == s[k]
  {
    s[i := s[j]][j := s[i]]
  }

  /** The array contents after exchanging `a[i]` and `a[j]` in place. */
  lemma SwapInPlace<T>(before: seq<T>, after: seq<T>, i: nat, j: nat)
    requires i < |before| && j < |before| && |after| == |before|
    requires after[i] == before[j] && after[j] == before[i]
    requires forall k :: 0 <= k < |before| && k != i && k != j ==> after[k] == before[k]
    ensures after == Swap(before, i, j)
  {
  }

  /**
   * The sequence after the rounds `|s| - 1` down to `i + 1` of the shuffle loop,
   * where round `k` exchanges index `k` with `Pick` of the `(|s| - 1 - k)`-th draw.
   */
  function ShuffledAbove<T>(s: seq<T>, i: nat, draws: seq<real>): (r: seq<T>)
    requires i < |s| && |s| - 1 <= |draws| && ValidDraws(draws)
    ensures |r| == |s|
    decreases |s| - i
  {
    if i == |s| - 1 then s
    else
      var k := i + 1;
      Swap(ShuffledAbove(s, k, draws), k, Pick(draws[|s| - 1 - k], k))
  }

  /** Exchanging two elements keeps the same elements. */
  lemma SwapPermutes<T>(s: seq<T>, i: nat, j: nat)
    requires i < |s| && j < |s|
    ensures multiset(Swap(s, i, j)) == multiset(s)
  {
  }

  /** Every round only exchanges two elements, so the rounds keep the same elements. */
  lemma {:induction false} ShuffledAbovePermutes<T>(s: seq<T>, i: nat, draws: seq<real>)
    requires i < |s| && |s| - 1 <= |draws| && ValidDraws(draws)
    ensures multiset(ShuffledAbove(s, i, draws)) == multiset(s)
    decreases |s| - i
  {
    if i < |s| - 1 {
      var k := i + 1;
      var prev, j := ShuffledAbove(s, k, draws), Pick(draws[|s| - 1 - k], k);
      ShuffledAbovePermutes(s, k, draws);
      SwapPermutes(prev, k, j);
      assert ShuffledAbove(s, i, draws) == Swap(prev, k, j);
    }
  }

  /** The whole Fisher–Yates shuffle of `s` with the given draws: all rounds down to 1. */
  function FisherYates<T>(s: seq<T>, draws: seq<real>): (r: seq<T>)
    requires |s| - 1 <= |draws| && ValidDraws(draws)
    ensures |r| == |s|
  {
    if s == [] then s else ShuffledAbove(s, 0, draws)
  }

  /**
   * The loop of `shuffleWords` on the array copy: for `i` from the last index down
   * to 1, exchange `a[i]` with `a[j]` for `j = Pick(draw, i)` in [0, i].
   */
  method ShuffleInPlace<T>(a: array<T>, draws: seq<real>)
    requires a.Length - 1 <= |draws| && ValidDraws(draws)
    modifies a
    ensures a[..] == FisherYates(old(a[..]), draws)
  {
    var n := a.Length;
    if n == 0 {
      return;
    }
    ghost var s := a[..];
    var i := n - 1;
    while i > 0
      invariant 0 <= i < n
      invariant a[..] == ShuffledAbove(s, i, draws)
      decreases i
    {
      var j := Pick(draws[n - 1 - i], i);
      ghost var before := a[..];
      a[i], a[j] := a[j], a[i];
      SwapInPlace(before, a[..], i, j);
      i := i - 1;
    }
  }

  /** The shuffle is a permutation: the same entries, each as often as before. */
  lemma FisherYatesPermutes<T>(s: seq<T>, draws: seq<real>)
    requires |s| - 1 <= |draws| && ValidDraws(draws)
    ensures |FisherYates(s, draws)| == |s| && multiset(FisherYates(s, draws)) == multiset(s)
  {
    if s != [] {
      ShuffledAbovePermutes(s, 0, draws);
    }
  }

  // ---------------------------------------------------------------------------
  // Keyboard

  /** A `keydown` event: its `code`, and whether its target is an input or a textarea. */
  datatype KeyEvent = KeyEvent(code: string, targetIsTextField: bool)

  /** What the keyboard handler does with an event. */
  datatype KeyCommand = Ignore | GoPrevious | GoNext | FlipCard

  function Dispatch(e: KeyEvent): (c: KeyCommand)
    ensures e.targetIsTextField ==> c == Ignore
    ensures !e.targetIsTextField ==> (c == GoPrevious <==> e.code == "ArrowLeft")
    ensures !e.targetIsTextField ==> (c == GoNext <==> e.code == "ArrowRight")
    ensures !e.targetIsTextField ==> (c == FlipCard <==> e.code == "Space")
  {
    if e.targetIsTextField then Ignore
    else if e.code == "ArrowLeft" then GoPrevious
    else if e.code == "ArrowRight" then GoNext
    else if e.code == "Space" then FlipCard
    else Ignore
  }

  // ---------------------------------------------------------------------------
  // The view's state

  class DeckView {
    /** The saved list as last passed in by the shell. */
    var words: seq<VocabularyWord>
    /** `displayedWords`. */
    var displayed: seq<VocabularyWord>
    var currentIndex: int
    /** `flashcardRef.current`: the mounted card, if one is shown. */
    var card: Card.Flashcard?

    /** The index points at a card, or is 0 on an empty deck. */
    ghost predicate IndexInBounds()
      reads this
    {
      if displayed == [] then currentIndex == 0 else 0 <= currentIndex < |displayed|
    }

    /**
     * The deck's invariant: it holds exactly the saved keys, neither it nor the
     * saved list repeats a key, and the index is in bounds.
     */
    ghost predicate Valid()
      reads this
    {
      Keys(displayed) == Keys(words) && Seqs.Unique(displayed, WordKey) && Seqs.Unique(words, WordKey)
      && IndexInBounds()
    }

    /** Whether a card is shown: the saved list is non-empty and the index points into the deck. */
    predicate CardShown()
      reads this
    {
      |words| > 0 && 0 <= currentIndex < |displayed|
    }

    /** The view as first mounted: the deck is a copy of the saved list, at index 0. */
    constructor (words: seq<VocabularyWord>)
      ensures this.words == words && displayed == words && currentIndex == 0 && card == null
      ensures IndexInBounds()
      ensures Seqs.Unique(words, WordKey) ==> Valid()
    {
      this.words := words;
      displayed := words;
      currentIndex := 0;
      card := null;
    }

    /**
     * The effect run when the saved list changes: the display order is reconciled
     * with it and the index repaired against the saved list's length.
     */
    method Sync(newWords: seq<VocabularyWord>)
      modifies this`words, this`displayed, this`currentIndex
      ensures words == newWords
      ensures displayed == Reconcile(old(displayed), newWords)
      ensures currentIndex == RepairIndex(old(currentIndex), |newWords|)
      ensures Seqs.Unique(old(displayed), WordKey) && Seqs.Unique(newWords, WordKey) && old(currentIndex) >= 0
        ==> Valid()
      ensures old(Valid()) && Seqs.Unique(newWords, WordKey) ==> Valid()
    {
      words := newWords;
      var n := |newWords|;
      if Seqs.Unique(old(displayed), WordKey) && Seqs.Unique(newWords, WordKey) {
        ReconcileUnique(displayed, newWords);
      }
      ReconcileKeys(displayed, newWords);
      displayed := Reconcile(displayed, newWords);
      if currentIndex >= n && n > 0 {
        currentIndex := n - 1;
      } else if n == 0 {
        currentIndex := 0;
      }
    }

    /**
     * `shuffleWords`: a Fisher–Yates pass over a copy of the deck, from the last index
     * down to 1, swapping index `i` with `Pick(draw, i)` in [0, i]; then the index
     * returns to 0. `draws` are the successive results of `Math.random()`.
     */
    method Shuffle(draws: seq<real>)
      requires |displayed| - 1 <= |draws| && ValidDraws(draws)
      modifies this`displayed, this`currentIndex
      ensures displayed == FisherYates(old(displayed), draws)
      ensures |displayed| == |old(displayed)| && multiset(displayed) == multiset(old(displayed))
      ensures Keys(displayed) == Keys(old(displayed))
      ensures Seqs.Unique(displayed, WordKey) <==> Seqs.Unique(old(displayed), WordKey)
      ensures currentIndex == 0
      ensures old(Valid()) ==> Valid()
    {
      var n := |displayed|;
      var s := displayed;
      var a := new VocabularyWord[n](k requires 0 <= k < n => s[k]);
      assert a[..] == s;
      ShuffleInPlace(a, draws);
      FisherYatesPermutes(s, draws);
      PermutationKeys(s, a[..]);
      displayed := a[..];
      currentIndex := 0;
    }

    /** `goToPrevious`: one card back, wrapping from the first to the last. */
    method GoToPrevious()
      modifies this`currentIndex
      ensures currentIndex == Prev(old(currentIndex), |displayed|)
      ensures old(IndexInBounds()) ==> IndexInBounds()
      ensures old(Valid()) ==> Valid()
    {
      if |displayed| == 0 {
        return;
      }
      currentIndex := if currentIndex == 0 then |displayed| - 1 else currentIndex - 1;
    }

    /** `goToNext`: one card on, wrapping from the last to the first. */
    method GoToNext()
      modifies this`currentIndex
      ensures currentIndex == Next(old(currentIndex), |displayed|)
      ensures old(IndexInBounds()) ==> IndexInBounds()
      ensures old(Valid()) ==> Valid()
    {
      if |displayed| == 0 {
        return;
      }
      currentIndex := if currentIndex == |displayed| - 1 then 0 else currentIndex + 1;
    }

    /**
     * `handleKeyDown`. The result says whether the event's default action was
     * prevented, which happens exactly for a Space key outside a text field.
     */
    method HandleKeyDown(e: KeyEvent) returns (preventDefault: bool)
      modifies this`currentIndex, card
      ensures preventDefault <==> Dispatch(e) == FlipCard
      ensures Dispatch(e) == GoPrevious ==> currentIndex == Prev(old(currentIndex), |displayed|)
      ensures Dispatch(e) == GoNext ==> currentIndex == Next(old(currentIndex), |displayed|)
      ensures Dispatch(e) in {Ignore, FlipCard} ==> currentIndex == old(currentIndex)
      ensures card != null && Dispatch(e) == FlipCard ==>
        card.isFlipped == Card.AfterFlip(old(card.isFlipped), card.speech.speaking)
      ensures card != null && Dispatch(e) != FlipCard ==> card.isFlipped == old(card.isFlipped)
      ensures card != null ==> card.word == old(card.word)
      ensures old(Valid()) ==> Valid()
    {
      preventDefault := false;
      match Dispatch(e) {
        case Ignore =>
        case GoPrevious => GoToPrevious();
        case GoNext => GoToNext();
        case FlipCard =>
          preventDefault := true;
          if card != null {
            card.Flip();
          }
      }
    }

    /**
     * Rendering after a state change, as far as it concerns the card: with no card to
     * show the ref is cleared; a card whose key (`word`) differs from the mounted
     * card's is mounted afresh, unflipped; a card with the same key keeps its state
     * and receives the new entry.
     */
    method Render()
      modifies this`card, card
      ensures !CardShown() ==> card == null
      ensures CardShown() ==> card != null && card.word == displayed[currentIndex]
      ensures CardShown() && old(card) != null && old(card.word.word) == displayed[currentIndex].word ==>
        card == old(card) && card.isFlipped == old(card.isFlipped)
      ensures CardShown() && (old(card) == null || old(card.word.word) != displayed[currentIndex].word) ==>
        fresh(card) && Card.FaceOf(card.isFlipped) == Card.Front
      ensures old(Valid()) ==> Valid()
    {
      if !CardShown() {
        card := null;
        return;
      }
      var current := displayed[currentIndex];
      if card != null && card.word.word == current.word {
        card.word := current;
      } else {
        card := new Card.Flashcard(current);
      }
    }
  }
}
