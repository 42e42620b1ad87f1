# Audio flashcards: deck navigation and card list, in Dafny

A model of the review logic of a browser flashcard application for language
learners. The user creates cards, each holding a word and an optional audio
clip. The cards live in one list owned by the page. The user steps through
them one at a time, either in insertion order or in a shuffled order, and can
flip the card on screen, play its audio and open a dictionary entry for the
word.

| file | module | source | form |
|---|---|---|---|
| `cards.dfy` | `Cards` | `src/components/CardCreator.tsx` (the `FlashcardData` record, `trim` and the card built by `handleSubmit`) | datatypes and functions |
| `library.dfy` | `Library` | `src/pages/Index.tsx` | class `IndexPage` (fields `cards`, `activeTab`) plus the filter and the footer counts as functions |
| `creator.dfy` | `Creator` | `src/components/CardCreator.tsx` (the form) | class `CardCreator` (fields `word`, `audioUrl`, `isCreating`) |
| `deck.dfy` | `Deck` | `src/components/CardDeck.tsx` | class `CardDeck` (fields `currentIndex`, `isShuffled`, `shuffledCards`) plus the cursor arithmetic as functions |
| `flashcard.dfy` | `Face` | `src/components/Flashcard.tsx` | class `Flashcard` (fields `isFlipped`, `isPlaying`) plus the dictionary link as a function |

The components are wired as in the application. `CardCreator` and `CardDeck`
each hold a reference to the `IndexPage`. The creator's `onAddCard` is the
page's `AddCard`. The deck reads the page's `cards` and its `onDeleteCard`
is the page's `DeleteCard`. Each event handler is one atomic transition
computed from the values of the current render.

The deck's invariant `CardDeck.Valid()` has three parts:

- the cursor is never negative;
- the cursor is inside the active view whenever that view is non-empty;
- in shuffled mode, the shuffled copy is at least as long as the page's list
  and holds every card of it, as a multiset.

Every control keeps `Valid()`. Deleting also needs distinct ids. `Deck.Session`
runs any sequence of control presses and shows the cursor stays valid
throughout, and that a current card exists whenever the page has cards.

Two behaviours are modelled as the code has them:

- The cursor clamp after a deletion compares against the length of the
  page's list, `cards.length`, even in shuffled mode.
- Deleting never touches the shuffled copy. In shuffled mode the deleted card
  stays in the shuffled view until the next shuffle; `DeleteCurrent` states
  this. Whether it stays on screen depends on the clamp. The clamp moves the
  cursor when it stands at or past the last position of the page's list,
  unless that list has one card and the cursor is at 0. With three cards and
  the cursor on the last, the cursor moves and another card is shown
  (`Deck.DeleteLastShuffled`). A card deleted earlier can also stay on
  screen, and pressing delete on it again changes nothing
  (`Deck.DeleteStaleShuffled` walks through two cards).

A reader might expect a deletion to prune the shuffled view as well; the code
does not, and the model follows the code. Deleting the last remaining card in
shuffled mode empties the page's list while the shuffled copy still holds the
card. The deck then shows its empty-deck panel, because
`src/components/CardDeck.tsx:80` tests the page's list, not the view.

The shuffle sorts a copy of the list in place, using a random comparator.
The sorting algorithm depends on the engine. The model describes the order
the sort leaves as a product of exchanges: a caller-supplied list of position
pairs (`Shuffle(swaps)`). It applies them to a fresh array, and it proves the
result is a permutation of the page's list. Any permutation is such a product
of exchanges, so no order the sort can produce is excluded.

## Model

| member | source | states |
|---|---|---|
| Cards.HasAudio | src/components/Flashcard.tsx:23 | the truthiness of an optional audio reference: absent and empty are falsy, any non-empty string is truthy |
| Cards.IsWhitespace | src/components/CardCreator.tsx:29 | the characters `trim` strips include space, tab and newline, and no visible ASCII character |
| Cards.IsBlank | src/components/CardCreator.tsx:29 | a word is refused exactly when every character of it is whitespace, the empty word included |
| Cards.TrimStart | src/components/CardCreator.tsx:29 | the leading-whitespace half of `trim`: the result is a suffix, everything dropped is whitespace, and the result does not start with whitespace |
| Cards.TrimEnd | src/components/CardCreator.tsx:29 | the trailing half: the result is a prefix, everything dropped is whitespace, and the result does not end with whitespace |
| Cards.Trim | src/components/CardCreator.tsx:29 | `word.trim()` is the slice after the leading and before the trailing whitespace; it has no whitespace at either end; it is empty exactly when the word is all whitespace |
| Cards.TrimIdempotent | src/components/CardCreator.tsx:42 | trimming the stored, already trimmed word changes nothing |
| Cards.NoEdgeWhitespaceTrimsToSelf | src/components/CardCreator.tsx:29 | a non-empty string with no whitespace at either end is its own trim |
| Cards.NewCard | src/components/CardCreator.tsx:29-45 | a blank word gives no card, exactly when every character is whitespace; otherwise the card's word is the trimmed word, which is non-empty and has no whitespace at either end; the audio reference is passed through unchanged (including absent); the id and time are the ones given |
| Creator.CardCreator.constructor | src/components/CardCreator.tsx:22-24 | a new form has an empty word, no audio, and is not creating |
| Creator.CardCreator.SubmitEnabled | src/components/CardCreator.tsx:98 | the submit button is enabled exactly when no card is being created and the word has a non-whitespace character |
| Creator.CardCreator.EditWord | src/components/CardCreator.tsx:84-86 | typing replaces the word; it is only possible while not creating |
| Creator.CardCreator.SetAudio | src/components/CardCreator.tsx:91 | the audio widget's callback replaces the audio reference |
| Creator.CardCreator.HandleSubmit | src/components/CardCreator.tsx:26-58 | a blank word leaves the form and the page untouched; otherwise the page's list grows by exactly the card `NewCard` builds, the tab becomes study, and the form resets to an empty word, no audio and not creating; a submit made while the button is enabled always creates a card |
| Library.CountId | src/pages/Index.tsx:41 | the number of cards carrying an id is zero exactly when no card carries it |
| Library.RemoveById | src/pages/Index.tsx:41 | the filter leaves no card with the id, removes exactly as many cards as carry it, and keeps a sub-multiset of the input |
| Library.RemoveByIdKeepsOthers | src/pages/Index.tsx:41 | every card with a different id keeps all its occurrences |
| Library.RemoveByIdIsSubsequence | src/pages/Index.tsx:41 | the kept cards keep their relative order: the result is a subsequence of the input |
| Library.RemoveByIdAppend | src/pages/Index.tsx:41 | the filter distributes over concatenation |
| Library.RemoveAbsentId | src/pages/Index.tsx:41 | deleting an id no card carries leaves the list unchanged |
| Library.RemoveByIdIdempotent | src/pages/Index.tsx:41 | deleting the same id twice is the same as deleting it once |
| Library.CountDistinct | src/pages/Index.tsx:41 | with distinct ids an id occurs at most once |
| Library.RemovePresentDistinct | src/pages/Index.tsx:41 | with distinct ids, deleting a present id removes exactly one card |
| Library.RemoveKeepsDistinct | src/pages/Index.tsx:41 | deleting never makes two ids equal |
| Library.SubsequenceDistinct | src/pages/Index.tsx:41 | a subsequence of a list with distinct ids has distinct ids |
| Library.WithAudio | src/pages/Index.tsx:105 | the with-audio count is at most the total; it equals the total exactly when every card's audio is present and non-empty; it is zero exactly when none is |
| Library.WithAudioAppend | src/pages/Index.tsx:105 | the count adds up over concatenation, so adding a card raises it by one exactly when that card has audio |
| Library.Coverage | src/pages/Index.tsx:113 | the coverage lies in 0..100; it is 0 for an empty deck or one without audio, and 100 when every card has audio; it is the whole number nearest to 100 * withAudio / max(len, 1) |
| Library.IndexPage.constructor | src/pages/Index.tsx:11-28 | the page starts on the study tab, with the stored list if one was read back and with no cards otherwise |
| Library.IndexPage.AddCard | src/pages/Index.tsx:35-38 | the new list is the old list plus the new card at the end: one longer, last element the new card, prefix unchanged; the tab becomes study |
| Library.IndexPage.DeleteCard | src/pages/Index.tsx:40-42 | the new list is the filtered list: no card with the id is left, and it is a subsequence of the old list; an absent id changes nothing; with distinct ids, ids stay distinct and a present id removes exactly one card; the tab is unchanged |
| Library.IndexPage.SelectTab | src/pages/Index.tsx:63 | the tab widget sets the active tab |
| Deck.NextIndex | src/components/CardDeck.tsx:22-32 | from a cursor inside a view of `len` cards, next stays inside it and equals (i + 1) mod len |
| Deck.PrevIndex | src/components/CardDeck.tsx:34-40 | from a cursor inside the view, previous stays inside it and equals (i - 1 + len) mod len |
| Deck.NextPrevInverse | src/components/CardDeck.tsx:22-40 | previous undoes next, and next undoes previous |
| Deck.NextTimesAdvances | src/components/CardDeck.tsx:22-32 | within one round, `k` nexts move the cursor `k` places forward, wrapping once |
| Deck.FullRound | src/components/CardDeck.tsx:22-32 | `len` consecutive nexts come back to the starting card |
| Deck.Swap | src/components/CardDeck.tsx:43 | one exchange swaps two positions, keeps the rest and keeps the multiset |
| Deck.ApplySwaps | src/components/CardDeck.tsx:43 | the order left by the sort has the same length and the same multiset of cards as its input |
| Deck.ShownAudio | src/components/CardDeck.tsx:144 | the audio prop of the card on screen is present exactly when the card's reference is present and non-empty, and then it is that reference |
| Deck.CardDeck.DisplayCards | src/components/CardDeck.tsx:19 | the view is the shuffled copy in shuffled mode and the page's list otherwise |
| Deck.ViewHoldsPage | src/components/CardDeck.tsx:19 | under the invariant every card of the page's list is in the view, with at least its multiplicity |
| Deck.CardDeck.CurrentCard | src/components/CardDeck.tsx:19-20 | there is a current card exactly when the cursor is inside the active view, and then it is the view's card at the cursor; whenever the page has cards, so the controls are drawn, there is one |
| Deck.CardDeck.constructor | src/components/CardDeck.tsx:15-17 | a mounted deck starts at the first card, in insertion order, with no shuffled copy, and satisfies the invariant |
| Deck.CardDeck.Next | src/components/CardDeck.tsx:22-32 | the cursor becomes `NextIndex` of the active view's length; nothing else changes; the invariant is kept |
| Deck.CardDeck.Previous | src/components/CardDeck.tsx:34-40 | the cursor becomes `PrevIndex` of the active view's length; nothing else changes; the invariant is kept; reachable only while the page has cards |
| Deck.ExchangeAll | src/components/CardDeck.tsx:43 | performing the exchanges in place on the copied array leaves it in exactly the order `ApplySwaps` describes |
| Deck.CardDeck.Shuffle | src/components/CardDeck.tsx:42-52 | the shuffled copy becomes the exchanged copy of the page's list, so the same cards as a multiset and the same length; the mode becomes shuffled and the cursor 0; the page's list is untouched |
| Deck.CardDeck.ResetOrder | src/components/CardDeck.tsx:54-62 | the mode returns to insertion order and the cursor to 0, so the active view is exactly the page's list; the shuffled copy is kept |
| Deck.CardDeck.DeleteCurrent | src/components/CardDeck.tsx:64-78 | with no current card nothing changes; otherwise the page deletes exactly the current card's id, and the cursor becomes max(0, oldLen - 2) when it was at or past oldLen - 1, where oldLen is the page's list length before the deletion in both modes, and is unchanged otherwise; the mode and the shuffled copy never change; in insertion order the list shrinks by one, and in shuffled mode the deleted card stays in the shuffled view; the invariant and distinct ids are kept |
| Deck.Session | src/components/CardDeck.tsx:80-130 | across any sequence of control presses, made only while the controls are drawn and reset only while shuffled, the invariant and distinct ids hold, and there is a current card whenever the page has cards |
| Deck.DeleteLastShuffled | src/components/CardDeck.tsx:64-78 | in shuffled mode over three cards with the cursor on the last, deleting keeps the first two, moves the cursor onto the second card, and leaves the deleted card in the shuffled view |
| Deck.DeleteStaleShuffled | src/components/CardDeck.tsx:64-78 | in shuffled mode with the view the reverse of a two-card list and the cursor at 0, a first delete leaves the cursor on the deleted card, and a second delete of that card leaves the list and the cursor as they were, so it stays on screen |
| Deck.ShuffleThenReset | src/components/CardDeck.tsx:42-62 | shuffle followed by reset shows the page's cards in their original order at the first card |
| Face.LowerChar | src/components/Flashcard.tsx:32 | ASCII lower-casing of one character gives no upper-case letter; it shifts an upper-case letter by 32 and keeps anything else |
| Face.Lower | src/components/Flashcard.tsx:32 | lower-casing keeps the length and lower-cases each character |
| Face.LowerIdempotent | src/components/Flashcard.tsx:32 | lower-casing twice is lower-casing once |
| Face.DictionaryUrl | src/components/Flashcard.tsx:32 | the link is the fixed dictionary prefix followed by the lower-cased word; its length is the prefix length plus the word length; it has no upper-case letter after the prefix |
| Face.DictionaryUrlIgnoresCase | src/components/Flashcard.tsx:32 | a word and its lower-cased form lead to the same link |
| Face.Flashcard.constructor | src/components/Flashcard.tsx:13-15 | on mounting the card shows its audio face, with nothing playing |
| Face.Flashcard.ReceiveProps | src/components/CardDeck.tsx:143-146 | moving the deck to another card replaces the word and audio reference of the same instance; the face and the playing flag carry over, so play stays disabled while an earlier clip plays |
| Face.Flashcard.PlayEnabled | src/components/Flashcard.tsx:58-64 | the play button is usable exactly when the audio reference is present and non-empty and nothing is playing |
| Face.Flashcard.HandleFlip | src/components/Flashcard.tsx:17-20 | flipping negates the face and notifies `onFlip` exactly when one was given |
| Face.FlipTwice | src/components/Flashcard.tsx:17-20 | two flips restore the original face |
| Face.Flashcard.PlayAudio | src/components/Flashcard.tsx:22-25 | without a present, non-empty audio reference nothing changes; otherwise playing starts and the play button is disabled |
| Face.Flashcard.PlaybackStopped | src/components/Flashcard.tsx:27-29 | ended, error and a rejected `play()` each clear the playing flag, which re-enables play for a card with audio |

## Left out

- Audio capture and upload (`src/components/AudioUpload.tsx`) is not part of this model. That file is microphone, `MediaRecorder`, blob and object-URL handling. The creator only sees its result through `SetAudio`.
- Persistence is not modelled: the `localStorage` read and write, and JSON parsing and serialising with date reconstruction. The page's constructor takes the outcome of loading as a parameter. `None` stands for an absent, empty or unparsable stored value, and the list then stays empty. Write-through on every change is not modelled.
- Randomness is not modelled. The shuffle takes the sort's exchanges as a parameter. Nothing is said about the distribution, or about the comparator being inconsistent.
- `Date.now()` ids and `new Date()` timestamps are parameters of `HandleSubmit`. The code does not make ids distinct, so `DeleteCurrent` and `Session` require distinct ids. With a repeated id, one delete removes several cards while the cursor may stay put. Example: insertion order, `[x (id 1), y (id 1), z (id 2)]`, cursor 1. Deleting leaves `[z]` with the cursor still 1, so there is no current card and reading its `audioUrl` at `src/components/CardDeck.tsx:144` throws. The model does not cover that state.
- Library.Coverage: models `Math.round` of the floating-point quotient as exact round-half-up on whole numbers. Floating-point error at exact halves is not captured: for 23 of 40 cards the program computes 0.575 * 100 as 57.49999999999999 and shows 57, where the model gives 58.
- Cards.IsWhitespace covers ASCII whitespace plus no-break space, the line and paragraph separators and the byte-order mark. It does not cover every Unicode space separator that `trim` strips.
- Face.Lower lower-cases ASCII letters only. Full Unicode `toLowerCase` is not modelled.
- Toasts, rendering, CSS, `window.open` of the dictionary link and the tab widget's visuals are left out.
- React scheduling is left out. Batched and asynchronous `setState` is taken as one atomic transition per handler. In the code, `isCreating` is set and cleared inside one handler, so it is never seen true between events.
- The deck's single `Flashcard` has no `key`, so `isFlipped` and `isPlaying` carry over to the next card shown. `Face.Flashcard.ReceiveProps` states this for one instance. The deck model does not hold that instance, so its controls do not call `ReceiveProps`.
- The deck's lifetime is the constructor. The deck is shown only on the study tab, and adding a card happens on the create tab. The model assumes the page's list changes only through the deck's delete control while a deck exists. The first render breaks this: the page starts with no cards on the study tab (`src/pages/Index.tsx:11-12`), so the deck is mounted before the load effect (`src/pages/Index.tsx:15-28`) replaces the list under it. This does not break `Valid()`: the deck is then in insertion order with cursor 0. The model builds the page from the loaded list and mounts the deck afterwards.
- Face.Flashcard.PlayAudio: the `Audio` object, its events and the `play()` promise are outside the model. Their three outcomes are the `PlaybackStopped` transition.
