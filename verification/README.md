# leitner-box in Dafny

A model of the core of the leitner-box library, a spaced-repetition
scheduler built as an immutable "Leitner box". The box holds three kinds of
deck:

- an **unknown** deck of cards not yet scheduled;
- a **learned** deck of retired cards;
- a ring of **lesson slots**.

Each slot keeps the list of lessons (`repeatOn`) on which its cards come due.
The model covers:

- the scheduler helpers of `src/utils.ts`: the recurrence `fib`,
  `buildRepeatLessons` and `buildEmptyDecks`;
- the box operations of `src/functions.ts`: `createLeitnerBox` and
  `setCurrentLesson`;
- the three `addTo*` operations and the three `moveTo*` operations, together
  with the private helpers behind them (`addCardTo`, `findAndRemove`,
  `findAndRemoveInLessons` and `removeCard`).

Modules, in dependency order:

- `Utils` (`utils.dfy`):
  - the recurrence `Fib(0) = 0`, `Fib(n) = Fib(n-1) + n + 1` and its closed
    form;
  - the schedule rows `RepeatRow`, and the scheduler's nested loops as the
    methods `BuildRow` (inner loop) and `BuildRepeatLessons` (outer loop);
  - facts about the ring of `count = Fib(repetitions) + 1` slots.
- `Types` (`types.dfy`):
  - `Lesson`, `Decks`, `Box` and `Config` over an opaque card type `T`;
  - `Option` for JavaScript's `null`/`undefined`;
  - `WellFormed`, what every box the factory builds satisfies;
  - `SameFrame`, "only the cards differ".
- `Cards` (`cards.dfy`):
  - `FindFirst`, the card a match lens views (Ramda's `find`);
  - `Reject` (Ramda's `reject`) and `Matching`, its complement;
  - their algebra.
- `Lenses` (`lenses.dfy`):
  - the three lens paths of the library as a `Target`, read with `ViewDeck`
    and written with `SetDeck`;
  - `AllCards`, every card of the box;
  - multiset bookkeeping for replacing one deck.
- `Functions` (`functions.dfy`): the operations, one Dafny function per
  library function.
- `Properties` (`properties.dfy`): what the locate-and-remove protocol
  promises:
  - the fixed search order (unknown, learned, then slots by index);
  - the no-op when nothing is found;
  - for a truthy card that is the only match in the box, that every move
    takes exactly that card to the end of its target deck and keeps the
    multiset of all cards (a falsy match is never moved);
  - that duplicates of a matched card collapse into one.
- `Scenarios` (`scenarios.dfy`): the concrete boxes of the library's
  test-suite worked through the model, and the laws of the current-lesson
  setter.

How the JavaScript is represented:

- A card argument that is `null` or `undefined` is `None`.
- JavaScript truthiness of a card value is a caller-supplied predicate
  `truthy`, and `Present(card, truthy)` is "the card is there and truthy".
- The card identity callback (`CardIdentity`) is a predicate
  `identity: T -> bool`.
- Each lens is a `Target`: `UnknownDeck`, `LearnedDeck` or `LessonDeck(i)`.
- The Ramda combinators (`R.over`, `R.partial`, `R.pipe`, `R.apply`) are
  written out as plain function composition.

What the code does, set against what its tests expect, and two further
facts about the code that the model keeps:

- **Schedule rows.**
  - The inner loop of `buildRepeatLessons` runs `j` from 0 to
    `repetitions`. Every row therefore has `repetitions + 1` entries and
    starts with the slot itself: slot 0 of the default box reads
    `[0, 2, 5, 9]`.
  - The test-suite expects `[2, 5, 9]`, the entries for `j = 1..repetitions`.
  - The model keeps the loop as written (`RepeatRow`).
  - `Utils.DropLeadingEntry` proves that a row as written is exactly the slot
    followed by the tested row (`TestedRow`).
  - With `count = Fib(repetitions) + 1`, the leading entry is the only
    occurrence of the slot in its row (`Utils.RowEntriesDistinct`).
- **Removal** (a fact about the code).
  - `findAndRemove` removes every card the identity accepts from the deck it
    settles on (`R.reject`), not just the one it returns.
  - `Properties.MoveCollapsesDuplicates` shows two equal matching cards
    becoming one.
  - All card-preservation properties are stated for boxes with at most one
    matching card.
- **Initial decks** (a fact about the code).
  - `createLeitnerBox` does not check the length of `initialDecks`.
  - The model states the length the code needs, `Fib(repetitions) + 3`, as a
    precondition.

`lensMatchIdentity` is imported from `./utils` at `src/functions.ts:12`, but
no file of this model defines it: `src/utils.ts` (modelled in full) has no
such name, so the import does not resolve here. It is modelled as a lens that
views the first card of the deck the identity accepts (`Cards.FindFirst`). The rest of
the model relies on that reading, which is an assumption.

## Model

| member | source | states |
|---|---|---|
| Utils.FibClosedForm | src/utils.ts:1 | twice `fib(n)` is `n * (n + 3)` for every `n` |
| Utils.FibStrictlyIncreasing | src/utils.ts:1 | `fib` is strictly increasing, so schedule offsets never repeat |
| Utils.FibSmallValues | tests/index.test.ts:23-28 | `fib(1..3)` are 2, 5, 9, so the default ring has `fib(3) + 1 = 10` slots |
| Utils.RepeatRow | src/utils.ts:13-15 | a row has `repetitions + 1` entries, each a position on the ring of `count` slots |
| Utils.RepeatLessons | src/utils.ts:7-21 | one row per ring slot, row `i` being the schedule of slot `i` |
| Utils.BuildRow | src/utils.ts:11-15 | the inner loop builds `repetitions + 1` entries led by the slot itself, entry `j` being `(i + fib(j)) mod count`, a ring position |
| Utils.BuildRepeatLessons | src/utils.ts:7-21 | the outer loop builds one row per ring slot, in slot order, and the result is the schedule `RepeatLessons` |
| Utils.TestedRow | tests/index.test.ts:45-48 | the schedule the test-suite expects for a slot: `repetitions` entries, each a position on the ring; `DropLeadingEntry` ties it to the row as written |
| Utils.DropLeadingEntry | src/utils.ts:13-14 | a row as written is its own slot followed by the `j = 1..repetitions` row the test-suite expects |
| Utils.LastEntryIsPredecessor | src/functions.ts:80-81 | with `count = fib(repetitions) + 1`, the last review of slot `i` is the slot before `i` on the ring (slot `fib(repetitions)` for slot 0) |
| Utils.RowEntriesDistinct | src/functions.ts:80-81 | with `count = fib(repetitions) + 1`, no slot appears twice in one row |
| Utils.TestedScheduleExamples | tests/index.test.ts:37-80 | the rows the test-suite checks for the first and last slot with 3 and 2 repetitions, and the rows as written |
| Utils.BuildEmptyDecks | src/utils.ts:23-25 | `count + 2` decks, all empty |
| Types.SameFrameKeepsWellFormed | src/types.ts:20-25 | changing only the cards of a box keeps the ring size and every slot's schedule |
| Cards.FindFirst | src/functions.ts:62-65 | no card is found exactly when no card of the deck is accepted; a found card is the first accepted one |
| Cards.Matching | src/functions.ts:38 | every selected card is accepted by the identity, and there are no more of them than cards in the deck |
| Cards.Reject | src/functions.ts:38 | every kept card is refused by the identity, the deck never grows, and a deck with no match is unchanged |
| Cards.RejectPartition | src/functions.ts:38 | the kept cards and the matching cards together are exactly the deck's multiset of cards |
| Cards.RejectCount | src/functions.ts:38 | a card is kept as often as it occurs in the deck when refused, never when accepted |
| Cards.MatchingMember | src/functions.ts:38 | every card of the deck the identity accepts is among the matching cards |
| Cards.MatchingInDeck | src/functions.ts:38 | every matching card is a card of the deck the identity accepts |
| Cards.FindFirstHeadsMatching | src/functions.ts:36-38 | the card a match lens views is the first of the matching cards, and exists exactly when there is one |
| Cards.MatchingAppend | src/functions.ts:38 | selecting matching cards distributes over concatenating decks |
| Cards.RejectAppend | src/functions.ts:38 | rejecting distributes over concatenating decks |
| Cards.MatchingCount | src/functions.ts:38 | a card occurs among the matching cards as often as in the deck when accepted, never otherwise |
| Cards.RejectSingleMatchAt | src/functions.ts:38 | rejecting the only matching card of a deck cuts exactly that card out and keeps the order of the rest |
| Lenses.SetDeck | src/functions.ts:15-18 | writing through a lens sets that deck and leaves the counters, schedules and every other deck as they were |
| Lenses.SetDeckViewed | src/functions.ts:15-18 | writing back what a lens views leaves the box unchanged |
| Lenses.SetDeckCards | src/functions.ts:15-18 | replacing a deck swaps its cards in the multiset of all cards of the box |
| Lenses.DeckMatchingBound | src/functions.ts:15-18 | no deck holds more matching cards than the whole box |
| Lenses.DeckInBox | src/functions.ts:15-18 | the cards a lens views are among the cards of the box |
| Lenses.TwoDecksInBox | src/functions.ts:15-18 | two different lenses view disjoint parts of the cards of the box |
| Lenses.AppendCardCards | src/functions.ts:26 | appending through a lens adds exactly that card to the box |
| Functions.AddCardTo | src/functions.ts:20-28 | a present card is appended to the end of the target deck and nothing else changes; a missing or falsy card returns the box itself |
| Functions.FindAndRemove | src/functions.ts:30-39 | succeeds exactly when the first matching card exists and is truthy; then returns that card, and the box in which the deck has lost every matching card while nothing else changed |
| Functions.FindAndRemoveInLessons | src/functions.ts:41-56 | fails exactly when no slot from `from` on succeeds; otherwise its result is the first succeeding slot's |
| Functions.RemoveCard | src/functions.ts:58-73 | only cards change; with no card found the box comes back unchanged; a returned card is accepted and truthy |
| Functions.CreateLeitnerBox | src/functions.ts:75-99 | the box is well formed with `fib(repetitions) + 1` slots; repetitions default to 3 and the current lesson to 0; the first initial deck is unknown, the last learned, the middle ones fill the slots in order; without initial decks everything is empty |
| Functions.SetCurrentLesson | src/functions.ts:101-110 | only the current lesson changes, to the given value |
| Functions.AddToUnknown | src/functions.ts:112 | a present card is appended to the unknown deck and nothing else changes; otherwise the box itself is returned |
| Functions.AddToLearned | src/functions.ts:113 | a present card is appended to the learned deck and nothing else changes; otherwise the box itself is returned |
| Functions.AddToLessons | src/functions.ts:114-115 | a present card is appended to the current lesson's slot, which keeps its schedule, and every other slot and deck is unchanged; otherwise the box itself is returned |
| Functions.MoveToUnknown | src/functions.ts:117 | only cards change, so a well-formed box stays well formed |
| Functions.MoveToLearned | src/functions.ts:118 | only cards change, so a well-formed box stays well formed |
| Functions.MoveToLessons | src/functions.ts:119 | only cards change, so a well-formed box stays well formed |
| Properties.FirstYieldingSlot | src/functions.ts:47-53 | below any slot the locator accepts there is a first accepted slot |
| Properties.LocatedExists | src/functions.ts:67-70 | whenever some deck is accepted, the search settles on one deck before which nothing is accepted |
| Properties.RemoveCardSearchOrder | src/functions.ts:58-73 | when the search settles on deck `t` (unknown, then learned, then slots by index), removeCard returns the first match of `t` and the box with `t` rejected-through and nothing else changed |
| Properties.RemoveCardNotFound | src/functions.ts:67-72 | removeCard finds a card exactly when some deck is accepted; otherwise it returns the box unchanged and no card |
| Properties.NoMatchNotFound | src/functions.ts:36-38 | a box holding no matching card has no deck the locator accepts |
| Properties.MoveNotFound | tests/index.test.ts:665-675 | every move returns its input box when nothing is found |
| Properties.RelocateFound | src/functions.ts:117-119 | the card lands at the end of the target deck, the source deck loses its matching cards, every other deck is unchanged |
| Properties.RelocateFoundCards | src/functions.ts:117-119 | a move loses the matching cards of the source deck and gains the one card returned |
| Properties.SingleMatchOfDeck | src/functions.ts:36-38 | a deck with one matching card has that card as its first match |
| Properties.RelocatePreservesCards | src/functions.ts:117-119 | with at most one matching card in the box, relocating keeps the multiset of all cards |
| Properties.MovePreservesCards | src/functions.ts:117-119 | with at most one matching card in the box, every move keeps the multiset of all cards |
| Properties.UniqueCardLocated | src/functions.ts:58-73 | the only matching card, when truthy, is found, and the deck the search settles on holds it |
| Properties.RelocateUniqueCard | src/functions.ts:117-119 | the only matching card, when truthy, ends up last in the target deck, is still the only match, and no card is lost or duplicated |
| Properties.MoveUniqueCardToUnknown | src/functions.ts:117 | moveToUnknown takes the only matching card, when truthy, to the end of the unknown deck, where it is still the only match |
| Properties.MoveUniqueCardToLearned | src/functions.ts:118 | moveToLearned takes the only matching card, when truthy, to the end of the learned deck, where it is still the only match |
| Properties.MoveUniqueCardToLessons | src/functions.ts:119 | moveToLessons takes the only matching card, when truthy, to the end of the current lesson's slot, where it is still the only match |
| Properties.UniqueCardInOneDeck | src/functions.ts:15-18 | the only matching card of the box lies in one deck only |
| Properties.UniqueCardDeck | src/functions.ts:58-73 | the search settles on the deck that holds the only matching card, when that card is truthy |
| Properties.RelocateWithinDeck | src/functions.ts:117-119 | moving the only matching card, when truthy, into the deck that holds it takes it out and re-appends it at the end |
| Properties.MoveCollapsesDuplicates | src/functions.ts:38 | two equal matching cards in the unknown deck become one card in the learned deck |
| Scenarios.DefaultBox | tests/index.test.ts:23-56 | the default box: 3 repetitions, 10 slots all empty, lesson 0, slot 0 due on 2, 5, 9 and slot 9 on 1, 4, 8 behind their leading entries |
| Scenarios.InitialDecksBox | tests/index.test.ts:89-147 | with two repetitions and no current lesson given: a ring of 6 slots, lesson 0, the first initial deck is the unknown deck, the last the learned deck, and slot `i` holds initial deck `i + 1` for every slot |
| Scenarios.CardInSlotOne | tests/index.test.ts:649-663 | the one-repetition box built from initial decks holds exactly the card "a" in slot 1 |
| Scenarios.CardInSlotOneLocated | tests/index.test.ts:649-663 | the search for "a" settles on slot 1 |
| Scenarios.MoveOutOfLessonsToUnknown | tests/index.test.ts:649-663 | moving "a" to the unknown deck leaves every slot empty |
| Scenarios.MoveOutOfLessonsToLesson | tests/index.test.ts:763-776 | moving "a" to the current lesson empties slot 1 and fills slot 0 |
| Scenarios.MoveMissingCard | tests/index.test.ts:778-788 | looking for a card the box does not hold, every move returns the box unchanged |
| Scenarios.SetCurrentLessonLaws | src/functions.ts:101-110 | the setter and the field agree, the last write wins, and well-formedness is kept |

## Left out

- The query functions `getCardInfo`, `isLastLessonForCard`, `getCardsForLesson`,
  `getCardsForCurrentLesson` and `getCurrentLesson` are re-exported by
  `src/index.ts`, but their implementation is not part of this model.
- `lensMatchIdentity`, imported at `src/functions.ts:12`, is not part of this
  model: the import does not resolve in `src/utils.ts`. It is assumed to view
  the first accepted card of a deck (`Cards.FindFirst`), as described above.
- `range` (`src/utils.ts:3-5`) is folded into `BuildEmptyDecks`.
- Reference identity (`===`) of boxes is not modelled. The tests that check
  "returns a new box" or "returns the same box" are read as value equality.
  The model returns the input itself exactly where the code does.
- JavaScript truthiness is not modelled in general; it is the `truthy`
  parameter.
- JavaScript numbers are doubles; the model uses unbounded integers. The two
  agree while values stay below 2^53, far above any realistic ring size.
- Functions.AddToLessons: the source's behaviour when `currentLesson` is
  outside the ring and the card is present is left out. Ramda would create
  or index a slot that does not exist. The model requires the current lesson
  to be a slot whenever a card would be added.
- Functions.MoveToLessons: the same requirement, whenever removeCard
  returns a card.
- Functions.CreateLeitnerBox: an `initialDecks` of the wrong length is
  excluded by a precondition. The code does not check the length.
- Functions.CreateLeitnerBox: only non-negative integer `repetitions` are
  modelled (the field is a `nat`). `fib` stops only at exactly 0, so a
  negative or fractional value makes the code recurse until JavaScript
  throws a stack-overflow `RangeError`. A non-terminating call has no
  result to state, so that path is left out.
- Functions.MoveToUnknown, Functions.MoveToLearned, Functions.MoveToLessons:
  their own contracts only state that the frame is kept. What they do with
  the card is stated by the `Properties` lemmas (`RelocateFound`,
  `MoveNotFound`, the three `MoveUniqueCardTo*` lemmas and
  `MovePreservesCards`).
- Properties.MovePreservesCards, Properties.RelocatePreservesCards: stated
  for boxes with at most one matching card. With more, `R.reject` drops
  the extra copies (see `MoveCollapsesDuplicates`).
