/**
 * The saved-word list of the application shell and the operations on it:
 * the case-insensitive membership test, toggling a word, removing a word,
 * and the word lists handed to the vocabulary generator as exclusions.
 */
module SavedWords {
  import opened Types
  import Seqs

  /**
   * `String.prototype.toLowerCase`, restricted to ASCII letters. The lemmas below
   * use nothing about it except that it is a function: equal inputs give equal outputs.
   */
  function Lower(s: string): (r: string)
    ensures |r| == |s|
  {
    if s == [] then []
    else [if 'A' <= s[0] <= 'Z' then (s[0] as int + 32) as char else s[0]] + Lower(s[1..])
  }

  /** The case-insensitive identity key of an entry. */
  function FoldedKey(w: VocabularyWord): string
  {
    Lower(w.word)
  }

  /** Two entries denote the same word when their keys agree case-insensitively. */
  predicate SameWord(a: VocabularyWord, b: VocabularyWord)
  {
    FoldedKey(a) == FoldedKey(b)
  }

  /** The predicate `w => w.word.toLowerCase() !== word.word.toLowerCase()`. */
  function Unlike(word: VocabularyWord): VocabularyWord -> bool
  {
    w => !SameWord(w, word)
  }

  /** `isWordSaved`: some saved entry has the same case-insensitive key. */
  function IsWordSaved(saved: seq<VocabularyWord>, word: VocabularyWord): (b: bool)
    ensures b <==> exists i :: 0 <= i < |saved| && FoldedKey(saved[i]) == FoldedKey(word)
  {
    Seqs.Any(saved, (w: VocabularyWord) => SameWord(w, word))
  }

  /** `removeWordFromMyWords`: drop every entry that matches `word` case-insensitively. */
  function RemoveWord(saved: seq<VocabularyWord>, word: VocabularyWord): seq<VocabularyWord>
  {
    Seqs.Filter(saved, Unlike(word))
  }

  /** `toggleSaveWord`: remove every match of a saved word, or append an unsaved one. */
  function ToggleSaveWord(saved: seq<VocabularyWord>, word: VocabularyWord): seq<VocabularyWord>
  {
    if IsWordSaved(saved, word) then RemoveWord(saved, word) else saved + [word]
  }

  /** `ws.map(w => w.word)`: the keys of a list of entries, in order. */
  function WordsOf(ws: seq<VocabularyWord>): (r: seq<string>)
    ensures |r| == |ws|
    ensures forall i :: 0 <= i < |ws| ==> r[i] == ws[i].word
  {
    if ws == [] then [] else [ws[0].word] + WordsOf(ws[1..])
  }

  /** The saved list holds no two entries for the same case-insensitive word. */
  ghost predicate NoDuplicates(saved: seq<VocabularyWord>)
  {
    Seqs.Unique(saved, FoldedKey)
  }

  /**
   * What `RemoveWord` leaves: exactly the entries that do not match, every copy of
   * each, in their old order.
   */
  lemma RemoveWordExact(saved: seq<VocabularyWord>, word: VocabularyWord)
    ensures forall w :: w in RemoveWord(saved, word) <==> w in saved && !SameWord(w, word)
    ensures forall w :: multiset(RemoveWord(saved, word))[w] == if SameWord(w, word) then 0 else multiset(saved)[w]
    ensures Seqs.IsSubsequence(RemoveWord(saved, word), saved)
    ensures !IsWordSaved(RemoveWord(saved, word), word)
  {
    Seqs.FilterIsSubsequence(saved, Unlike(word));
    Seqs.FilterCount(saved, Unlike(word));
    var r := RemoveWord(saved, word);
    forall i | 0 <= i < |r| ensures !SameWord(r[i], word) {
      assert r[i] in r;
    }
  }

  /** Removing is idempotent. */
  lemma RemoveWordIdempotent(saved: seq<VocabularyWord>, word: VocabularyWord)
    ensures RemoveWord(RemoveWord(saved, word), word) == RemoveWord(saved, word)
  {
    Seqs.FilterIdempotent(saved, Unlike(word));
  }

  /** Removing a word that is not saved changes nothing. */
  lemma RemoveUnsavedWord(saved: seq<VocabularyWord>, word: VocabularyWord)
    requires !IsWordSaved(saved, word)
    ensures RemoveWord(saved, word) == saved
  {
    forall w | w in saved ensures Unlike(word)(w) {
      var i :| 0 <= i < |saved| && saved[i] == w;
    }
    Seqs.FilterKeepsAll(saved, Unlike(word));
  }

  /** Removing distributes over concatenation, so entries on either side keep their order. */
  lemma RemoveWordConcat(a: seq<VocabularyWord>, b: seq<VocabularyWord>, word: VocabularyWord)
    ensures RemoveWord(a + b, word) == RemoveWord(a, word) + RemoveWord(b, word)
  {
    Seqs.FilterConcat(a, b, Unlike(word));
  }

  /** Toggling an unsaved word appends it and leaves every earlier entry where it was. */
  lemma ToggleUnsaved(saved: seq<VocabularyWord>, word: VocabularyWord)
    requires !IsWordSaved(saved, word)
    ensures ToggleSaveWord(saved, word) == saved + [word]
    ensures IsWordSaved(ToggleSaveWord(saved, word), word)
  {
    var r := ToggleSaveWord(saved, word);
    assert r[|saved|] == word;
  }

  /** Toggling a saved word removes every match and keeps every copy of the other entries, in order. */
  lemma ToggleSaved(saved: seq<VocabularyWord>, word: VocabularyWord)
    requires IsWordSaved(saved, word)
    ensures forall w :: w in ToggleSaveWord(saved, word) <==> w in saved && !SameWord(w, word)
    ensures forall w :: multiset(ToggleSaveWord(saved, word))[w] == if SameWord(w, word) then 0 else multiset(saved)[w]
    ensures Seqs.IsSubsequence(ToggleSaveWord(saved, word), saved)
    ensures !IsWordSaved(ToggleSaveWord(saved, word), word)
  {
    RemoveWordExact(saved, word);
  }

  /** Toggling an unsaved word twice gives back the original list. */
  lemma ToggleTwiceRestores(saved: seq<VocabularyWord>, word: VocabularyWord)
    requires !IsWordSaved(saved, word)
    ensures ToggleSaveWord(ToggleSaveWord(saved, word), word) == saved
  {
    ToggleUnsaved(saved, word);
    RemoveWordConcat(saved, [word], word);
    RemoveUnsavedWord(saved, word);
    assert Seqs.Filter([word], Unlike(word)) == [];
  }

  /** Toggling keeps a duplicate-free saved list duplicate-free. */
  lemma ToggleKeepsNoDuplicates(saved: seq<VocabularyWord>, word: VocabularyWord)
    requires NoDuplicates(saved)
    ensures NoDuplicates(ToggleSaveWord(saved, word))
  {
    if IsWordSaved(saved, word) {
      Seqs.FilterKeepsUnique(saved, Unlike(word), FoldedKey);
    } else {
      var r := saved + [word];
      forall i, j | 0 <= i < j < |r| ensures FoldedKey(r[i]) != FoldedKey(r[j]) {
        if j == |saved| {
          assert r[i] == saved[i];
        }
      }
    }
  }

  /** The keys of a concatenation are the keys of its parts, in order. */
  lemma {:induction false} WordsOfConcat(a: seq<VocabularyWord>, b: seq<VocabularyWord>)
    ensures WordsOf(a + b) == WordsOf(a) + WordsOf(b)
  {
    if a == [] {
      assert a + b == b;
    } else {
      assert (a + b)[1..] == a[1..] + b;
      WordsOfConcat(a[1..], b);
    }
  }
}
