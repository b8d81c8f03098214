/**
 The operations of the Leitner box: construction, the current-lesson
 setter, appending a card to a deck, the ordered locate-and-remove protocol
 and the moves built from the two.

 Card identity is a caller-supplied predicate `identity`; JavaScript's
 truthiness of a card value is the predicate `truthy`, and a missing card
 (null / undefined) is `None`.
 */
module Functions {
  import opened Utils
  import opened Types
  import opened Cards
  import opened Lenses

  /** A card argument that is there and truthy. */
  predicate Present<T>(card: Option<T>, truthy: T -> bool)
  {
    card.Some? && truthy(card.value)
  }

  /** The locator accepts `deck`: its first matching card exists and is truthy. */
  predicate Yields<T>(deck: seq<T>, identity: T -> bool, truthy: T -> bool)
  {
    Present(FindFirst(deck, identity), truthy)
  }

  /** Appends a present card to the deck `t` points at; a missing or falsy
      card leaves the box as it is. */
  function AddCardTo<T>(t: Target, b: Box<T>, card: Option<T>, truthy: T -> bool): (r: Box<T>)
    requires Present(card, truthy) ==> ValidTarget(b, t)
    ensures SameFrame(b, r)
    ensures !Present(card, truthy) ==> r == b
    ensures Present(card, truthy) ==>
              && ViewDeck(r, t) == ViewDeck(b, t) + [card.value]
              && Untouched(b, r, t)
  {
    if Present(card, truthy) then
      var d := ViewDeck(b, t) + [card.value];
      SetDeck(b, t, d)
    else
      b
  }

  /** Looks at the first card of deck `t` the identity accepts; when it is
      truthy, removes every accepted card from that deck and returns the
      new box with that card, otherwise reports nothing found. */
  function FindAndRemove<T>(t: Target, identity: T -> bool, truthy: T -> bool, b: Box<T>)
    : (r: Option<(Box<T>, T)>)
    requires ValidTarget(b, t)
    ensures r.Some? <==> Yields(ViewDeck(b, t), identity, truthy)
    ensures r.Some? ==>
              && SameFrame(b, r.value.0)
              && r.value.1 == FindFirst(ViewDeck(b, t), identity).value
              && identity(r.value.1) && truthy(r.value.1) && r.value.1 in ViewDeck(b, t)
              && ViewDeck(r.value.0, t) == Reject(ViewDeck(b, t), identity)
              && (forall x :: x in ViewDeck(r.value.0, t) ==> !identity(x))
              && Untouched(b, r.value.0, t)
  {
    var deck := ViewDeck(b, t);
    var card := FindFirst(deck, identity);
    if card.Some? && truthy(card.value) then
      Some((SetDeck(b, t, Reject(deck, identity)), card.value))
    else
      None
  }

  /** Tries the lesson slots from index `from` upwards and stops at the
      first slot the locator accepts. */
  function FindAndRemoveInLessons<T>(identity: T -> bool, truthy: T -> bool, b: Box<T>, from: nat)
    : (r: Option<(Box<T>, T)>)
    requires from <= |b.decks.lessons|
    ensures r.None? <==>
              forall k :: from <= k < |b.decks.lessons| ==>
                !Yields(b.decks.lessons[k].cards, identity, truthy)
    ensures forall k :: from <= k < |b.decks.lessons|
                        && Yields(b.decks.lessons[k].cards, identity, truthy)
                        && (forall k' :: from <= k' < k ==> !Yields(b.decks.lessons[k'].cards, identity, truthy))
                        ==> r == FindAndRemove(LessonDeck(k), identity, truthy, b)
    ensures r.Some? ==> SameFrame(b, r.value.0) && identity(r.value.1) && truthy(r.value.1)
    decreases |b.decks.lessons| - from
  {
    if from == |b.decks.lessons| then None
    else
      var result := FindAndRemove(LessonDeck(from), identity, truthy, b);
      if result.Some? then result
      else FindAndRemoveInLessons(identity, truthy, b, from + 1)
  }

  /** Searches unknown, then learned, then the lesson slots, and removes
      the located card; the box comes back unchanged with no card when
      nothing is found. */
  function RemoveCard<T>(b: Box<T>, identity: T -> bool, truthy: T -> bool): (r: (Box<T>, Option<T>))
    ensures SameFrame(b, r.0)
    ensures r.1.None? ==> r.0 == b
    ensures r.1.Some? ==> identity(r.1.value) && truthy(r.1.value)
  {
    var inUnknown := FindAndRemove(UnknownDeck, identity, truthy, b);
    if inUnknown.Some? then (inUnknown.value.0, Some(inUnknown.value.1))
    else
      var inLearned := FindAndRemove(LearnedDeck, identity, truthy, b);
      if inLearned.Some? then (inLearned.value.0, Some(inLearned.value.1))
      else
        var inLessons := FindAndRemoveInLessons(identity, truthy, b, 0);
        if inLessons.Some? then (inLessons.value.0, Some(inLessons.value.1))
        else (b, None)
  }

  /** Builds a box: Fib(repetitions) + 1 lesson slots, each keeping its
      schedule row and the cards of the matching middle entry of the
      initial decks; the first entry is the unknown deck and the last the
      learned deck. Left-out settings default to 3 repetitions, lesson 0
      and empty decks. */
  function CreateLeitnerBox<T>(config: Config<T>): (r: Box<T>)
    requires config.initialDecks.Some? ==>
               |config.initialDecks.value| == Fib(config.repetitions.GetOr(3)) + 3
    ensures WellFormed(r)
    ensures r.repetitions == config.repetitions.GetOr(3)
    ensures r.currentLesson == config.currentLesson.GetOr(0)
    ensures r.count == Fib(r.repetitions) + 1 && |r.decks.lessons| == r.count
    ensures config.initialDecks.Some? ==>
              var decks := config.initialDecks.value;
              && r.decks.unknown == decks[0]
              && r.decks.learned == decks[|decks| - 1]
              && forall i :: 0 <= i < r.count ==> r.decks.lessons[i].cards == decks[i + 1]
    ensures config.initialDecks.None? ==>
              && r.decks.unknown == []
              && r.decks.learned == []
              && forall i :: 0 <= i < r.count ==> r.decks.lessons[i].cards == []
  {
    var repetitions := config.repetitions.GetOr(3);
    var count := Fib(repetitions) + 1;
    var repeatOn := RepeatLessons(count, repetitions);
    var raw := config.initialDecks.GetOr(BuildEmptyDecks(count));
    var middle := raw[1..|raw| - 1];
    var lessons := seq(|middle|, (index: int) requires 0 <= index < |middle| =>
                         Lesson(repeatOn[index], middle[index]));
    Box(count, repetitions, config.currentLesson.GetOr(0), Decks(raw[0], raw[|raw| - 1], lessons))
  }

  /** The box with its current lesson replaced; nothing else changes and
      the value is not range-checked. */
  function SetCurrentLesson<T>(b: Box<T>, currentLesson: int): (r: Box<T>)
    ensures r.currentLesson == currentLesson
    ensures r.count == b.count && r.repetitions == b.repetitions && r.decks == b.decks
  {
    b.(currentLesson := currentLesson)
  }

  /** Appends a present card to the end of the unknown deck. */
  function AddToUnknown<T>(b: Box<T>, card: Option<T>, truthy: T -> bool): (r: Box<T>)
    ensures !Present(card, truthy) ==> r == b
    ensures Present(card, truthy) ==>
              && r.decks.unknown == b.decks.unknown + [card.value]
              && r.decks.learned == b.decks.learned
              && r.decks.lessons == b.decks.lessons
              && r.count == b.count && r.repetitions == b.repetitions
              && r.currentLesson == b.currentLesson
  {
    AddCardTo(UnknownDeck, b, card, truthy)
  }

  /** Appends a present card to the end of the learned deck. */
  function AddToLearned<T>(b: Box<T>, card: Option<T>, truthy: T -> bool): (r: Box<T>)
    ensures !Present(card, truthy) ==> r == b
    ensures Present(card, truthy) ==>
              && r.decks.learned == b.decks.learned + [card.value]
              && r.decks.unknown == b.decks.unknown
              && r.decks.lessons == b.decks.lessons
              && r.count == b.count && r.repetitions == b.repetitions
              && r.currentLesson == b.currentLesson
  {
    AddCardTo(LearnedDeck, b, card, truthy)
  }

  /** Appends a present card to the cards of the current lesson's slot. */
  function AddToLessons<T>(b: Box<T>, card: Option<T>, truthy: T -> bool): (r: Box<T>)
    requires Present(card, truthy) ==> 0 <= b.currentLesson < |b.decks.lessons|
    ensures !Present(card, truthy) ==> r == b
    ensures Present(card, truthy) ==>
              && |r.decks.lessons| == |b.decks.lessons|
              && r.decks.lessons[b.currentLesson].cards
                 == b.decks.lessons[b.currentLesson].cards + [card.value]
              && r.decks.lessons[b.currentLesson].repeatOn
                 == b.decks.lessons[b.currentLesson].repeatOn
              && (forall k :: 0 <= k < |b.decks.lessons| && k != b.currentLesson ==>
                    r.decks.lessons[k] == b.decks.lessons[k])
              && r.decks.unknown == b.decks.unknown
              && r.decks.learned == b.decks.learned
              && r.count == b.count && r.repetitions == b.repetitions
              && r.currentLesson == b.currentLesson
  {
    AddCardTo(LessonDeck(b.currentLesson), b, card, truthy)
  }

  /** Removes the located card and appends it to the unknown deck. */
  function MoveToUnknown<T>(b: Box<T>, identity: T -> bool, truthy: T -> bool): (r: Box<T>)
    ensures SameFrame(b, r)
    ensures WellFormed(b) ==> WellFormed(r)
  {
    var (after, card) := RemoveCard(b, identity, truthy);
    AddToUnknown(after, card, truthy)
  }

  /** Removes the located card and appends it to the learned deck. */
  function MoveToLearned<T>(b: Box<T>, identity: T -> bool, truthy: T -> bool): (r: Box<T>)
    ensures SameFrame(b, r)
    ensures WellFormed(b) ==> WellFormed(r)
  {
    var (after, card) := RemoveCard(b, identity, truthy);
    AddToLearned(after, card, truthy)
  }

  /** Removes the located card and appends it to the current lesson's slot. */
  function MoveToLessons<T>(b: Box<T>, identity: T -> bool, truthy: T -> bool): (r: Box<T>)
    requires RemoveCard(b, identity, truthy).1.Some? ==> 0 <= b.currentLesson < |b.decks.lessons|
    ensures SameFrame(b, r)
    ensures WellFormed(b) ==> WellFormed(r)
  {
    var (after, card) := RemoveCard(b, identity, truthy);
    AddToLessons(after, card, truthy)
  }
}
