# Business English Teacher: saved-word deck and saved-word list

A Dafny model of the stateful core of a vocabulary-learning web application.
A user enters a profession, a remote generator returns vocabulary entries (word,
Turkish translation, example sentence), the user saves some of them, and drills
the saved ones as flashcards. The model covers:

- **The saved-word list** kept by the application shell (`App.tsx`): the
  case-insensitive membership test, toggling and removing a word, and the word
  lists sent to the generator as exclusions (module `SavedWords`). It also covers
  the shell's state and handlers (`AppState.App`). The two generation handlers
  await the remote call, so each one is split at the `await` into a `Begin…`
  transition, which returns the request, and an `End…` transition, which receives
  the call's result or the value it threw.
- **The flashcard deck** (`components/MyWordsView.tsx`, module `Deck`): its own
  display order and current index. The display order is reconciled against the
  saved list whenever that list changes. The module also covers index repair, the
  Fisher–Yates shuffle (an in-place array loop), wrap-around navigation, keyboard
  dispatch, and re-mounting the card when the displayed key changes.
  `DeckRemoval` proves what happens when the deck deletes the card on display
  through the shell.
- **The flashcard** (`components/Flashcard.tsx`, module `Card`): a front/back
  toggle whose flips are dropped while its speech hook is speaking. The imperative
  `flip()` handle runs the same path as a click.
- **The profession form** (`components/ProfessionInput.tsx`, module
  `ProfessionForm`): `String.prototype.trim` over the ECMAScript white-space and
  line-terminator code points, the submit guard, and the button's disabled state.
- **The speech hook** (`hooks/useSpeechSynthesis.ts`, module `Speech`): the voice
  preference rule, the `speak` guard, and the `speaking` flag's transitions.

Inputs from outside the program are parameters. These are the stored saved list,
what the generator returns or throws, the browser's voice list and whether it
offers speech synthesis at all, the utterance events, the successive
`Math.random()` results (a sequence of reals in [0, 1)), and keyboard events.

The model follows the code in three places where a reader might expect otherwise:

- Reconciliation compares keys by exact string equality. It does not compare them
  case-insensitively (`components/MyWordsView.tsx:21-28`).
- Index repair compares the index with the length of the saved list passed in,
  not with the length of the reconciled deck (`components/MyWordsView.tsx:35-39`).
  `Deck.ReconcileUnique` shows the two lengths agree when neither list repeats a
  key. `DeckRemoval.RemoveCurrent` shows the repair then lands on the expected
  card.
- The generator is not checked to honour the exclusion list. The model accepts
  whatever entries come back.

## Model

| member | source | states |
|---|---|---|
| `Seqs.Filter` | components/MyWordsView.tsx:24 | an element occurs in the result of `filter` exactly when it occurs in the input and satisfies the predicate, and the result is never longer than the input |
| `Seqs.FilterCount` | App.tsx:72 | `filter` keeps every copy of an element that satisfies the predicate and no copy of one that does not |
| `Seqs.Find` | hooks/useSpeechSynthesis.ts:15 | `find` returns nothing exactly when no element qualifies, and otherwise the element at the first qualifying index |
| `Seqs.Any` | App.tsx:60 | `some` holds exactly when some index holds a qualifying element |
| `SavedWords.IsWordSaved` | App.tsx:59-61 | a word is saved exactly when some saved entry's lower-cased key equals the word's lower-cased key |
| `SavedWords.WordsOf` | App.tsx:29 | the exclusion list holds, in order, the key of each entry and nothing else |
| `SavedWords.RemoveWordExact` | App.tsx:71-73 | removal keeps exactly the entries that do not match case-insensitively, every copy of each, in their original relative order, and no match remains |
| `SavedWords.RemoveWordIdempotent` | App.tsx:72 | removing the same word twice gives what removing it once gives |
| `SavedWords.RemoveUnsavedWord` | App.tsx:72 | removing a word that is not saved leaves the list unchanged |
| `SavedWords.RemoveWordConcat` | App.tsx:72 | removal distributes over concatenation, so entries on either side of any split keep their order |
| `SavedWords.ToggleUnsaved` | App.tsx:66-67 | toggling an unsaved word appends it at the end, leaves every earlier entry in place, and makes it saved |
| `SavedWords.ToggleSaved` | App.tsx:64-65 | toggling a saved word removes every case-insensitive match, keeps every copy of the rest in their original order, and makes it unsaved |
| `SavedWords.ToggleTwiceRestores` | App.tsx:63-69 | toggling an unsaved word twice restores the original list |
| `SavedWords.ToggleKeepsNoDuplicates` | App.tsx:63-69 | if no two saved entries match case-insensitively, the same holds after any toggle |
| `SavedWords.WordsOfConcat` | App.tsx:44 | the keys of saved-then-vocabulary are the saved keys followed by the vocabulary keys |
| `AppState.App.constructor` | App.tsx:14-18 | the shell starts with no profession, no vocabulary, the stored saved list, not loading and no error |
| `AppState.App.ToggleSave` | App.tsx:63-69 | the saved list becomes the toggle of the old one. An unsaved word is appended, a saved word ends up unsaved, and a duplicate-free list stays duplicate-free |
| `AppState.App.Remove` | App.tsx:71-73 | the saved list keeps exactly the old entries that do not match the word |
| `AppState.App.BeginGenerate` | App.tsx:23-30 | the profession is replaced, the vocabulary and the error are cleared, loading is on while the call runs, and the request excludes exactly the saved keys |
| `AppState.App.EndGenerate` | App.tsx:31-36 | on success the vocabulary is the returned words, on failure the error holds the thrown message (or the fixed fallback text), and loading is off either way |
| `AppState.App.BeginLoadMore` | App.tsx:39-45 | with an empty profession nothing changes and no request is made. Otherwise the error is cleared, loading is on, and the request excludes the saved keys followed by the vocabulary keys |
| `AppState.App.EndLoadMore` | App.tsx:46-51 | on success the new words are appended after the existing vocabulary, on failure the error is set and the vocabulary is kept, and loading is off either way |
| `Deck.ReconcileParts` | components/MyWordsView.tsx:20-31 | the retained part is exactly the displayed entries whose key is still saved, in displayed order. The added part is exactly the saved entries whose key was not displayed, in saved-list order. The result starts with the retained part |
| `Deck.ReconcileKeys` | components/MyWordsView.tsx:21-30 | after reconciling, the deck's key set equals the saved list's key set: no stale key and no missing key |
| `Deck.ReconcileFixed` | components/MyWordsView.tsx:20-31 | a deck that already has exactly the saved keys is left unchanged, including the mounting pass over the initial copy |
| `Deck.ReconcileIdempotent` | components/MyWordsView.tsx:20-31 | reconciling twice against the same saved list equals reconciling once |
| `Deck.ReconcileUnique` | components/MyWordsView.tsx:20-31 | when neither list repeats a key, the result repeats none and has exactly the saved list's length |
| `Deck.RepairIndex` | components/MyWordsView.tsx:35-39 | against a non-empty list a non-negative index ends in bounds, and a too-large index becomes the last index. Against an empty list it becomes 0. An in-bounds index is unchanged |
| `Deck.Next` | components/MyWordsView.tsx:62-67 | on an empty deck the index is unchanged; on an in-bounds index the step is `(i + 1) mod n` |
| `Deck.Prev` | components/MyWordsView.tsx:55-60 | on an empty deck the index is unchanged; on an in-bounds index the step is `(i - 1) mod n` |
| `Deck.NextPrevInverse` | components/MyWordsView.tsx:55-67 | next and previous undo each other on any in-bounds index |
| `Deck.Pick` | components/MyWordsView.tsx:47 | `Math.floor(r * (i + 1))` for `r` in [0, 1) lies in [0, i] |
| `Deck.ShuffledAbove` | components/MyWordsView.tsx:46-49 | the rounds of the loop done so far keep the length |
| `Deck.ShuffledAbovePermutes` | components/MyWordsView.tsx:46-49 | the rounds of the loop done so far keep the same multiset of entries |
| `Deck.FisherYates` | components/MyWordsView.tsx:44-51 | the whole shuffle keeps the length |
| `Deck.PermutationKeys` | components/MyWordsView.tsx:43-53 | rearranging a deck keeps its key set and whether it repeats a key |
| `Deck.FisherYatesPermutes` | components/MyWordsView.tsx:44-51 | the shuffled deck is a permutation of the old one: the same multiset of entries |
| `Deck.ShuffleInPlace` | components/MyWordsView.tsx:45-49 | the descending swap loop on the array leaves exactly the Fisher–Yates result of the old contents |
| `Deck.Dispatch` | components/MyWordsView.tsx:70-81 | events from a text field are ignored; otherwise ArrowLeft means previous, ArrowRight means next, Space means flip, and any other key does nothing |
| `Deck.DeckView.constructor` | components/MyWordsView.tsx:12-13 | the deck starts as a copy of the saved list at index 0, with no card mounted. With a key-unique saved list the deck's invariant holds: the deck has exactly the saved keys, neither repeats a key, and the index is in bounds |
| `Deck.DeckView.Sync` | components/MyWordsView.tsx:16-40 | the deck becomes the reconciliation of the old deck and the index the repair against the saved list's length. With key-unique lists the deck's invariant holds afterwards |
| `Deck.DeckView.Shuffle` | components/MyWordsView.tsx:43-53 | the deck becomes the Fisher–Yates shuffle of the old deck under the given draws, a permutation of the same length with the same key set and the same key-uniqueness. The index becomes 0 and the deck's invariant is kept |
| `Deck.DeckView.GoToPrevious` | components/MyWordsView.tsx:55-60 | the index steps back with wrap-around, does nothing on an empty deck, an in-bounds index stays in bounds, and the deck's invariant is kept |
| `Deck.DeckView.GoToNext` | components/MyWordsView.tsx:62-67 | the index steps on with wrap-around, does nothing on an empty deck, an in-bounds index stays in bounds, and the deck's invariant is kept |
| `Deck.DeckView.HandleKeyDown` | components/MyWordsView.tsx:70-82 | the default action is prevented exactly for the flip key. Previous and next move the index as specified. A flip reaches the mounted card under its speech guard. Nothing else changes the card's flip state or the index, no key changes the card's entry, and the deck's invariant is kept |
| `Deck.DeckView.Render` | components/MyWordsView.tsx:90-121 | with an empty saved list or no current entry no card is mounted. A card whose key differs from the mounted one is fresh and shows its front. A card with the same key keeps its flip state and gets the new entry. The deck's invariant is kept |
| `DeckRemoval.RetainedAfterRemoval` | App.tsx:71-73 | when the deck mirrors a duplicate-free saved list, removing the current card's word keeps every other card in place and drops only that card |
| `DeckRemoval.NothingAddedAfterRemoval` | components/MyWordsView.tsx:27-30 | after such a removal reconciling appends nothing |
| `DeckRemoval.SavedShrinksByOne` | App.tsx:72 | such a removal drops exactly one saved entry |
| `DeckRemoval.RemoveCurrent` | components/MyWordsView.tsx:20-39 | removing the card on display deletes it from the deck in place and nothing else, and the repaired index points at the following card, or at the new last card when the last one was removed |
| `DeckRemoval.AppendAfterSave` | components/MyWordsView.tsx:27-30 | once a new word is saved behind a deck of two other words, reconciling appends it at the end |
| `DeckRemoval.SessionExample` | components/MyWordsView.tsx:16-40 | a session on four words whose keys differ even up to case. The deck mounts as the saved list. Removing the second card leaves the other two in order with the index still 1, now on the third word. Saving a fourth word appends it to both the list and the deck |
| `Card.AfterFlip` | components/Flashcard.tsx:19-22 | a flip while speaking leaves the face unchanged; a flip while silent shows the other face |
| `Card.FlipTwiceRestores` | components/Flashcard.tsx:19-22 | two silent flips return the card to its original face |
| `Card.Flashcard.constructor` | components/Flashcard.tsx:16-17 | a mounted card shows its front and has a fresh, idle speech hook |
| `Card.Flashcard.HandleFlip` | components/Flashcard.tsx:19-22 | the flip state follows `AfterFlip` under the current speaking flag |
| `Card.Flashcard.Flip` | components/Flashcard.tsx:24-28 | the imperative handle has exactly the effect of a click on either face |
| `Card.Flashcard.ClickSpeaker` | components/Flashcard.tsx:42-51 | an utterance is produced only when speech is supported, idle and has a voice. It speaks the word, or the sentence for the sentence button, in the chosen voice, and it never flips the card |
| `Speech.PreferredVoice` | hooks/useSpeechSynthesis.ts:12-23 | the first local en-US voice if there is one. Otherwise the first voice whose language starts with `en-`. Nothing exactly when no voice's language starts with `en-` |
| `Speech.SpeechSynthesis.constructor` | hooks/useSpeechSynthesis.ts:4-6 | the hook starts not speaking, unsupported and without a voice |
| `Speech.SpeechSynthesis.Mount` | hooks/useSpeechSynthesis.ts:8-25 | with speech synthesis present the hook becomes supported and adopts the preferred voice if any. Without it nothing changes |
| `Speech.SpeechSynthesis.SetEnglishVoice` | hooks/useSpeechSynthesis.ts:12-23 | the voice becomes the preferred one when one exists and otherwise keeps its previous value |
| `Speech.SpeechSynthesis.Speak` | hooks/useSpeechSynthesis.ts:36-62 | no utterance without support or a voice. Otherwise an utterance of the text in the chosen voice and its language at pitch and rate 1, with the speaking flag unchanged |
| `Speech.SpeechSynthesis.OnStart` | hooks/useSpeechSynthesis.ts:51-53 | the start event sets the speaking flag |
| `Speech.SpeechSynthesis.OnEnd` | hooks/useSpeechSynthesis.ts:54-56 | the end event clears the speaking flag |
| `Speech.SpeechSynthesis.OnError` | hooks/useSpeechSynthesis.ts:57-60 | the error event clears the speaking flag |
| `ProfessionForm.Trim` | components/ProfessionInput.tsx:14 | the result is empty exactly when every character is trimmable. Otherwise it neither starts nor ends with a trimmable character. It is a contiguous slice of the input with only trimmable characters on either side |
| `ProfessionForm.TrimIdempotent` | components/ProfessionInput.tsx:15 | trimming a trimmed string changes nothing |
| `ProfessionForm.ButtonDisabled` | components/ProfessionInput.tsx:32 | the button is disabled exactly when the submit guard would reject |
| `ProfessionForm.ProfessionInput.constructor` | components/ProfessionInput.tsx:10 | the field starts empty |
| `ProfessionForm.ProfessionInput.OnChange` | components/ProfessionInput.tsx:25 | the field holds what was typed |
| `ProfessionForm.ProfessionInput.HandleSubmit` | components/ProfessionInput.tsx:12-17 | the generator is called exactly when the trimmed text is non-empty and nothing is loading, never while loading, and always with the trimmed text |

## Left out

- `services/geminiService.ts` is not part of this model. It holds the remote calls to the hosted generation API, the prompt text, the response schemas and `JSON.parse`. So the empty-response rules (an empty list for vocabulary, an error for details) and the conditional exclusion clause in the prompt are not modelled. The shell's handlers receive the call's result or thrown value as a parameter.
- `components/WordDetailModal.tsx` is not part of this model. It is an asynchronous detail fetch with loading and error flags around a remote call, plus its Escape-key handling. The shell's `handleShowDetails`, `selectedWord` and `isDetailModalOpen` only open that view and are left out with it.
- Presentation only: `VocabularyItem`, `MyWordsList` (not used by the shell), `VocabularyList` (its one condition decides whether the load-more button renders), `Header`, `Loader`, the view tabs and `view` state, and the deck's "n / m" counter.
- The trash button on a card is modelled on values only, by `DeckRemoval.RemoveCurrent`. There is no method in which the card calls back into the shell.
- `useLocalStorage` is not part of this model. The persisted list is the plain `myWords` field, and its stored value is the constructor's argument.
- The browser's speech engine: the `cancel()` calls in `speak` and at unmount, the audio, the timing of events, registering and clearing `onvoiceschanged`, and console messages. The voice list, the presence of the API and the events are inputs.
- Registering and removing the `keydown` listener. React's batching and effect timing: each handler and effect is one atomic transition, except that the two generation handlers are split at their `await`.
- `Math.random` is not modelled: its results arrive as a sequence of draws in [0, 1). Whether the shuffle is uniform is not stated.
- `SavedWords.Lower`: lower-cases ASCII letters only, where `toLowerCase` covers all of Unicode. No lemma depends on its cases, only on it being a function.
- The form's `preventDefault()` on submit, which is unconditional.
