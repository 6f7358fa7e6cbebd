# The Prawn Game: deck and session model

A Dafny model of the prompt-card game's session core. It covers the pieces
of `App.tsx` that build and walk a deck of questions, plus the pure render
logic of `components/GameCard.tsx`:

- `shuffleArray`, a Fisher-Yates shuffle on a copy of its input (`Shuffle`,
  with an array-based method proved against a step function);
- the card-set options: the defaults, `toggleCardSet`, `hasEnabledCardSet`
  and the category filter inside `initializeDeck` (`CardSets`);
- the four deck fields as a value, with `initializeDeck`, `nextCard` and
  `prevCard` as transitions (`Deck`). Cards are read in one fixed order:
  the history, then the card on screen, then the stack from its top down
  (the `Timeline`). Both moves keep that order; they only move the cursor;
- the `App` component's state as a class whose handlers update its fields
  in place (`Session.GameState`). The class keeps the invariant that
  history, screen and deck together hold exactly the dealt cards;
- the card component: the "End of Deck" placeholder, the wildcard badge,
  the flip handler and the five font-size buckets (`GameCard`).

Modelling choices:

- `QUESTIONS` is the `questions` constant of the class.
- `Math.random` is a sequence of reals in [0, 1): the k-th call returns
  `random[k]`. A shuffle of n cards needs n - 1 of them.
- React state setters are sequential field assignments.
- Filtering is by category id only. "Wildcard" is one category id among
  the others, and a question's `wildcard` flag drives only the badge.
- The filter tests `if (q.category)`, so an empty category string counts
  as uncategorised, as in JavaScript.

Behaviour of the code that the model keeps:

- Toggling an id that no set has still re-deals in game view, because
  `prev.map` returns a new array and the effect at `App.tsx:175-179`
  depends on `cardSets`. `Session.GameState.ToggleCardSet` models that.
- `nextCard` on the last card clears the screen without resetting
  `isFlipped`.

## Model

| member | source | states |
|---|---|---|
| Shuffle.SwapIndex | App.tsx:24 | `Math.floor(Math.random() * (i + 1))` always picks a partner index in [0, i] |
| Shuffle.Swap | App.tsx:25 | the destructuring swap exchanges the two positions and keeps every other element |
| Shuffle.Exchange | App.tsx:25 | the in-place swap leaves the array equal to `Swap` of its old contents |
| Shuffle.Steps | App.tsx:23-26 | the copy after the first k turns of the downward loop; same length as the input; specified by `StepsPermute` and proved equal to the array loop by `ShuffleArray` |
| Shuffle.Shuffled | App.tsx:21-28 | the order the shuffle returns; `ShuffledPermutes` proves it a permutation of the input |
| Shuffle.StepsPermute | App.tsx:23-26 | after any number of turns of the downward loop, the copy is a permutation of the input |
| Shuffle.ShuffledPermutes | App.tsx:21-28 | the shuffle result has the input's length and holds each element exactly as often as the input |
| Shuffle.ShuffleArray | App.tsx:21-28 | the loop over a fresh copy returns the order the step function defines, which is a permutation of the input; the caller's sequence is untouched |
| CardSets.DefaultCardSets | App.tsx:31-68 | the six default sets, all enabled; `Session.GameState.constructor` starts from them |
| CardSets.HasEnabledCardSet | App.tsx:181 | true iff some set is enabled |
| CardSets.EnabledCategories | App.tsx:109-111 | an id is listed iff some enabled set has it; the list has no more entries than there are sets |
| CardSets.EnabledCategoriesEmpty | App.tsx:109-119 | the enabled-id list is empty iff no set is enabled |
| CardSets.FilterBy | App.tsx:114-120 | the filter returns at most as many questions as its input, each from the input and accepted by the callback |
| CardSets.Keeps | App.tsx:114-120 | the filter callback; `KeepsIffEligible` states it on the toggles |
| CardSets.FilterQuestions | App.tsx:109-120 | the questions a deal is made from; specified by `FilterCounts`, `FilterMembership`, `FilterAppend` and `FilterKeepsUniqueIds` |
| CardSets.KeepsIffEligible | App.tsx:114-120 | the callback keeps a categorised question iff an enabled set has its category, and an uncategorised one iff some set is enabled |
| CardSets.FilterByCounts | App.tsx:114-120 | the filter keeps every copy of an accepted question and drops every copy of a rejected one |
| CardSets.FilterCounts | App.tsx:109-120 | the same count statement against the toggles directly |
| CardSets.FilterMembership | App.tsx:109-120 | a question is dealt iff it is in the question list and eligible |
| CardSets.FilterByAppend | App.tsx:114-120 | filtering a concatenation gives the concatenation of the filtered parts, so input order is kept |
| CardSets.FilterAppend | App.tsx:109-120 | the same order statement for the filter driven by the toggles |
| CardSets.AllDisabledDealsNothing | App.tsx:109-120 | with every set disabled, no question is dealt, categorised or not |
| CardSets.FilterSelects | App.tsx:114-120 | the filter only selects: no question comes out more often than it went in |
| CardSets.FilterKeepsUniqueIds | App.tsx:109-120 | if the question ids are distinct, so are the ids of the dealt questions |
| CardSets.ToggleCardSet | App.tsx:136-142 | exactly the sets with the given id have `enabled` negated; length, order, ids, names, descriptions and icons are kept |
| CardSets.ToggleUnknownIsNoOp | App.tsx:136-142 | toggling an id no set has leaves the options equal |
| CardSets.ToggleTwice | App.tsx:136-142 | toggling the same id twice restores the options |
| Deck.Init | App.tsx:122-128 | after the shuffle, the card on screen is the last shuffled card, or none iff nothing was dealt; history is empty; the card is face down; the reading order is the shuffled order reversed |
| Deck.Next | App.tsx:144-158 | `nextCard` on the deck fields; specified by `NextKeepsTimeline`, `NextStep`, `PrevUndoesNext` and `NextUndoesPrev` |
| Deck.Prev | App.tsx:160-173 | `prevCard` on the deck fields; specified by `PrevKeepsTimeline`, `PrevUndoesNext` and `NextUndoesPrev` |
| Deck.NextKeepsTimeline | App.tsx:144-158 | `nextCard` keeps the reading order and consistency and adds the card on screen, if any, to the history |
| Deck.PrevKeepsTimeline | App.tsx:160-173 | `prevCard` keeps the reading order and consistency, shortens a non-empty history by one and shows its last card |
| Deck.Cursor | App.tsx:144-173 | the history is a prefix of the reading order, the card on screen comes next, and the screen is empty iff every card has been shown |
| Deck.PrevUndoesNext | App.tsx:144-173 | with a card on screen, `nextCard` then `prevCard` restores deck, history and card |
| Deck.NextUndoesPrev | App.tsx:144-173 | with a non-empty history, `prevCard` then `nextCard` restores deck, history and card |
| Deck.NextStep | App.tsx:144-158 | one `nextCard` makes the history one card longer along the reading order, stopping at its end |
| Deck.NextNAdvances | App.tsx:144-158 | k presses of `nextCard` put the first min(history + k, total) cards of the reading order into the history |
| Deck.DrawsInOrder | App.tsx:122-158 | after a deal of n cards, k presses show the top min(k, n) cards in stack order; the screen is first empty at the n-th press, with an empty deck |
| Deck.ExhaustedIsFinal | App.tsx:145 | once the deck is exhausted, further `nextCard` presses change nothing |
| Deck.NoCardTwice | App.tsx:108-173 | cards in play that rearrange a deal with distinct ids have distinct ids, and the three places hold as many cards as the deal |
| Session.DealSize | App.tsx:93-96 | a deal's history, screen and deck together hold as many cards as its pool |
| Session.InitDealsPool | App.tsx:122-128 | any arrangement of the pool, once dealt, puts every card of the pool, and nothing else, into the deck and on screen |
| Session.NextKeepsDeal | App.tsx:144-158 | `nextCard` moves cards between history, screen and deck without adding or losing one |
| Session.PrevKeepsDeal | App.tsx:160-173 | `prevCard` moves cards between history, screen and deck without adding or losing one |
| Session.DealShowsEachQuestionOnce | App.tsx:108-158 | after a deal and any number of `nextCard` presses, the cards in play are a permutation of the filtered questions; with distinct question ids no card is shown twice |
| Session.GameState.constructor | App.tsx:91-96 | the initial state is the splash view with the default options and no deck, history or card |
| Session.GameState.InitializeDeck | App.tsx:108-129 | the deck fields become the deal of the shuffled filtered questions; the pool is that filtered list |
| Session.GameState.StartGame | App.tsx:131-134 | deals a fresh deck and switches to the game view |
| Session.GameState.OpenSettings | App.tsx:196 | the settings button returns to the splash view and keeps the deck and the deal invariant |
| Session.GameState.ToggleCardSet | App.tsx:136-142 | the options become the toggled options; in game view the deck is re-dealt from them, as the effect at App.tsx:175-179 does; on the splash view the deck is untouched |
| Session.GameState.NextCard | App.tsx:144-158 | the fields follow `Deck.Next`, the reading order is unchanged and the deal invariant holds |
| Session.GameState.PrevCard | App.tsx:160-173 | the fields follow `Deck.Prev`, the reading order is unchanged and the deal invariant holds |
| Session.GameState.Flip | App.tsx:319 | the flip handler negates `isFlipped` only when a card is on screen, since the placeholder carries no handler |
| Session.GameState.CanStart | App.tsx:297 | the start button is enabled iff some set is enabled; when it is disabled, a deal would be empty |
| Session.GameState.CanGoBack | App.tsx:329 | when the back button is disabled `prevCard` changes nothing; when it is enabled `prevCard` shortens the history |
| Session.GameState.CardsLeft | App.tsx:337 | the "Left" counter is the number of dealt cards neither in the history nor on screen |
| GameCard.SizeRank | components/GameCard.tsx:34-40 | each length falls into one of the five size buckets |
| GameCard.UnfoldRank | components/GameCard.tsx:34-40 | the bucket is the number of the bounds 40, 80, 120, 180 that the length exceeds |
| GameCard.FontSizeClass | components/GameCard.tsx:34-40 | total over all lengths: returns the class of the length's bucket (<= 40, 41-80, 81-120, 121-180, > 180) |
| GameCard.ExceededMonotone | components/GameCard.tsx:34-40 | a longer text exceeds at least the bounds a shorter one exceeds |
| GameCard.FontSizeMonotone | components/GameCard.tsx:34-40 | a longer text never gets a larger text size than a shorter one |
| GameCard.HasFlipHandler | components/GameCard.tsx:52-55 | only a card face carries the click handler; through `Render`'s contract it holds iff a card is given, which `Session.GameState.Flip` uses |
| GameCard.Render | components/GameCard.tsx:42-95 | a null card renders "End of Deck"; otherwise the face has the card's id and text, its length's size class, a wildcard badge iff `wildcard` is true, and the text side shows iff the card is flipped |

## Left out

- Randomness quality: nothing is claimed about the distribution of the shuffle. `Math.random` is a sequence of reals, not IEEE doubles.
- Shuffle.ShuffleArray: requires at least n - 1 random values for n cards, which an unbounded `Math.random` always supplies.
- GameCard.Render / GameCard.FontSizeClass: text length is counted in characters, so a character outside the Basic Multilingual Plane counts once here but twice in `card.text.length`; such a text near 40, 80, 120 or 180 characters can land in a larger-text bucket than in the app.
- React machinery: render timing, batched and asynchronous setters, `useCallback`, and the `AnimatePresence`/`motion` animations.
- The theme, its DOM side effects and its toggle: colours and classes only.
- `getIconForCardSet`: a pure mapping from ids to icon components.
- components/Button.tsx and tailwind.config.js: styling only.
- constants.ts is not part of this model; `QUESTIONS` is an input.
