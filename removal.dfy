/**
 * Removing the card on display. The card's delete button asks the shell to drop
 * the word from the saved list; the shell's new list then reaches the deck, which
 * reconciles with it and repairs its index. This module states what that round
 * trip does to the deck.
 */
module DeckRemoval {
  import opened Types
  import Seqs
  import SavedWords
  import Deck

  /** In a duplicate-free saved list, two entries with the same folded key are one entry. */
  lemma SameFoldedKeySameEntry(saved: seq<VocabularyWord>, a: int, b: int)
    requires SavedWords.NoDuplicates(saved)
    requires 0 <= a < |saved| && 0 <= b < |saved|
    requires SavedWords.FoldedKey(saved[a]) == SavedWords.FoldedKey(saved[b])
    ensures a == b
  {
  }

  /** An index of `ws` whose entry has key `k`, for a key of `ws`. */
  lemma IndexOfKey(ws: seq<VocabularyWord>, k: string) returns (m: int)
    requires k in Deck.Keys(ws)
    ensures 0 <= m < |ws| && ws[m].word == k
  {
    var w :| w in ws && w.word == k;
    m :| 0 <= m < |ws| && ws[m] == w;
  }

  /** The hypotheses of a removal: the deck mirrors the saved list and neither repeats a word. */
  ghost predicate Mirrors(deck: seq<VocabularyWord>, saved: seq<VocabularyWord>)
  {
    Deck.Keys(deck) == Deck.Keys(saved) && Seqs.Unique(deck, WordKey) && SavedWords.NoDuplicates(saved)
  }

  /** After the removal, the cards kept are all but the one at `i`, in place. */
  lemma RetainedAfterRemoval(deck: seq<VocabularyWord>, saved: seq<VocabularyWord>, i: int)
    requires 0 <= i < |deck| && Mirrors(deck, saved)
    ensures Deck.Retained(deck, SavedWords.RemoveWord(saved, deck[i])) == deck[..i] + deck[i + 1..]
  {
    var x := deck[i];
    var rest := SavedWords.RemoveWord(saved, x);
    SavedWords.RemoveWordExact(saved, x);
    var mi := IndexOfKey(saved, x.word);
    forall j | 0 <= j < |deck| && j != i
      ensures deck[j].word in Deck.Keys(rest)
    {
      var mj := IndexOfKey(saved, deck[j].word);
      if SavedWords.FoldedKey(saved[mj]) == SavedWords.FoldedKey(saved[mi]) {
        SameFoldedKeySameEntry(saved, mi, mj);
      }
      assert saved[mj] in rest;
    }
    assert x.word !in Deck.Keys(rest);
    Seqs.FilterDropsOne(deck, Deck.InKeys(Deck.Keys(rest)), i);
  }

  /** After the removal, no saved word lacks a card, so nothing is appended. */
  lemma NothingAddedAfterRemoval(deck: seq<VocabularyWord>, saved: seq<VocabularyWord>, i: int)
    requires 0 <= i < |deck| && Mirrors(deck, saved)
    ensures Deck.Added(deck, SavedWords.RemoveWord(saved, deck[i])) == []
  {
    var x := deck[i];
    var rest := SavedWords.RemoveWord(saved, x);
    SavedWords.RemoveWordExact(saved, x);
    RetainedAfterRemoval(deck, saved, i);
    var kept := deck[..i] + deck[i + 1..];
    forall y | y in rest
      ensures y.word in Deck.Keys(kept)
    {
      var j := IndexOfKey(deck, y.word);
      if j < i {
        assert kept[j] == deck[j];
      } else if j > i {
        assert kept[j - 1] == deck[j];
      }
    }
    Seqs.FilterDropsAll(rest, Deck.NotInKeys(Deck.Keys(kept)));
  }

  /** Exactly one saved entry matches the card at `i`, so the saved list loses one entry. */
  lemma SavedShrinksByOne(deck: seq<VocabularyWord>, saved: seq<VocabularyWord>, i: int)
    requires 0 <= i < |deck| && Mirrors(deck, saved)
    ensures |SavedWords.RemoveWord(saved, deck[i])| == |saved| - 1 == |deck| - 1
  {
    var x := deck[i];
    var mi := IndexOfKey(saved, x.word);
    forall k | 0 <= k < |saved| && k != mi
      ensures SavedWords.Unlike(x)(saved[k])
    {
      if SavedWords.FoldedKey(saved[k]) == SavedWords.FoldedKey(saved[mi]) {
        SameFoldedKeySameEntry(saved, k, mi);
      }
    }
    Seqs.FilterDropsOne(saved, SavedWords.Unlike(x), mi);
    UniqueUpToCase(saved);
    Deck.UniqueKeysCount(deck);
    Deck.UniqueKeysCount(saved);
  }

  /**
   * Removing the card at index `i` from the saved list, when the deck mirrors that
   * list: reconciling deletes that card in place and nothing else, the saved list
   * shrinks by one, and the repaired index shows the card that followed the removed
   * one, or the new last card.
   */
  lemma RemoveCurrent(deck: seq<VocabularyWord>, saved: seq<VocabularyWord>, i: int)
    requires 0 <= i < |deck| && Mirrors(deck, saved)
    ensures Deck.Reconcile(deck, SavedWords.RemoveWord(saved, deck[i])) == deck[..i] + deck[i + 1..]
    ensures |SavedWords.RemoveWord(saved, deck[i])| == |saved| - 1
    ensures Deck.RepairIndex(i, |saved| - 1) == if i == |deck| - 1 && i > 0 then i - 1 else i
  {
    RetainedAfterRemoval(deck, saved, i);
    NothingAddedAfterRemoval(deck, saved, i);
    SavedShrinksByOne(deck, saved, i);
  }

  /** A list with no case-insensitive duplicates has no exact duplicates either. */
  lemma UniqueUpToCase(saved: seq<VocabularyWord>)
    requires SavedWords.NoDuplicates(saved)
    ensures Seqs.Unique(saved, WordKey)
  {
    forall a, b | 0 <= a < b < |saved| ensures WordKey(saved[a]) != WordKey(saved[b]) {
      assert SavedWords.FoldedKey(saved[a]) != SavedWords.FoldedKey(saved[b]);
    }
  }

  /** Removing the middle one of three entries when the others do not match it. */
  lemma RemoveMiddle(a: VocabularyWord, b: VocabularyWord, c: VocabularyWord)
    requires !SavedWords.SameWord(a, b) && !SavedWords.SameWord(c, b)
    ensures SavedWords.RemoveWord([a, b, c], b) == [a, c]
  {
    var p := SavedWords.Unlike(b);
    assert p(a) && !p(b) && p(c);
    assert [a, b, c][1..] == [b, c] && [b, c][1..] == [c] && [c][1..] == [];
    assert Seqs.Filter([c], p) == [c];
    assert Seqs.Filter([b, c], p) == [c];
  }

  /** Reconciling after a new word `d` is saved behind the deck's `a` and `c` appends it. */
  lemma AppendAfterSave(a: VocabularyWord, c: VocabularyWord, d: VocabularyWord)
    requires d.word != a.word && d.word != c.word
    ensures Deck.Reconcile([a, c], [a, c, d]) == [a, c, d]
  {
    var keys := Deck.Keys([a, c, d]);
    assert a.word in keys && c.word in keys;
    Seqs.FilterKeepsAll([a, c], Deck.InKeys(keys));
    assert Deck.Keys([a, c]) == {a.word, c.word};
    var p := Deck.NotInKeys({a.word, c.word});
    assert !p(a) && !p(c) && p(d);
    assert [a, c, d][1..] == [c, d] && [c, d][1..] == [d] && [d][1..] == [];
    assert Seqs.Filter([d], p) == [d];
    assert Seqs.Filter([c, d], p) == [d];
  }

  /**
   * A session on four words whose keys differ even up to case: the deck mounts
   * as [a, b, c] at index 0; removing b while it is on display (index 1) leaves
   * [a, c] with the index still 1, now on c; saving d afterwards appends it,
   * giving [a, c, d].
   */
  lemma SessionExample(a: VocabularyWord, b: VocabularyWord, c: VocabularyWord, d: VocabularyWord)
    requires SavedWords.NoDuplicates([a, b, c, d])
    ensures Deck.Reconcile([a, b, c], [a, b, c]) == [a, b, c]
    ensures Deck.Reconcile([a, b, c], SavedWords.RemoveWord([a, b, c], b)) == [a, c]
    ensures Deck.RepairIndex(1, |SavedWords.RemoveWord([a, b, c], b)|) == 1
    ensures SavedWords.ToggleSaveWord(SavedWords.RemoveWord([a, b, c], b), d) == [a, c, d]
    ensures Deck.Reconcile([a, c], [a, c, d]) == [a, c, d]
  {
    var all := [a, b, c, d];
    var saved := [a, b, c];
    assert all[0] == a && all[1] == b && all[2] == c && all[3] == d;
    assert SavedWords.FoldedKey(a) != SavedWords.FoldedKey(b) && SavedWords.FoldedKey(b) != SavedWords.FoldedKey(c);
    assert SavedWords.FoldedKey(a) != SavedWords.FoldedKey(c);
    assert SavedWords.FoldedKey(a) != SavedWords.FoldedKey(d) && SavedWords.FoldedKey(c) != SavedWords.FoldedKey(d);
    assert a.word != b.word && b.word != c.word && a.word != c.word;
    assert d.word != a.word && d.word != c.word;
    assert Mirrors(saved, saved);
    Deck.ReconcileFixed(saved, saved);
    RemoveCurrent(saved, saved, 1);
    assert saved[..1] + saved[2..] == [a, c];
    RemoveMiddle(a, b, c);
    SavedWords.ToggleUnsaved([a, c], d);
    AppendAfterSave(a, c, d);
  }
}
