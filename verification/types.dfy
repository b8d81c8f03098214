/**
 The shape of a Leitner box: lesson slots, the three kinds of deck and the
 box itself, over an opaque card type `T`.
 */
module Types {
  import opened Utils

  /** An optional value; `None` stands for JavaScript's null / undefined. */
  datatype Option<T> = None | Some(value: T) {
    /** The value, or `default` when it is missing (a defaulted parameter). */
    function GetOr(default: T): T
    {
      if Some? then value else default
    }
  }

  /** One ring slot: the lessons on which its cards come due, and its cards. */
  datatype Lesson<T> = Lesson(repeatOn: seq<nat>, cards: seq<T>)

  /** The three deck kinds: not yet scheduled, retired, and the lesson ring. */
  datatype Decks<T> = Decks(unknown: seq<T>, learned: seq<T>, lessons: seq<Lesson<T>>)

  datatype Box<T> = Box(count: nat, repetitions: nat, currentLesson: int, decks: Decks<T>)

  /** The optional settings of box creation; `None` means the field was left out. */
  datatype Config<T> = Config(
    repetitions: Option<nat>,
    currentLesson: Option<int>,
    initialDecks: Option<seq<seq<T>>>)

  /** What every box built by the factory satisfies: the ring has
      Fib(repetitions) + 1 slots and slot k keeps the schedule row of k. */
  predicate WellFormed<T>(b: Box<T>)
  {
    && b.count == Fib(b.repetitions) + 1
    && |b.decks.lessons| == b.count
    && forall k :: 0 <= k < |b.decks.lessons| ==>
         b.decks.lessons[k].repeatOn == RepeatRow(b.count, k, b.repetitions)
  }

  /** Everything but the cards is the same in `b` and `b'`: the counters,
      the current lesson, the number of slots and every slot's schedule. */
  predicate SameFrame<T>(b: Box<T>, b': Box<T>)
  {
    && b'.count == b.count
    && b'.repetitions == b.repetitions
    && b'.currentLesson == b.currentLesson
    && |b'.decks.lessons| == |b.decks.lessons|
    && forall k :: 0 <= k < |b.decks.lessons| ==>
         b'.decks.lessons[k].repeatOn == b.decks.lessons[k].repeatOn
  }

  /** Only the cards change between the two boxes, so well-formedness carries over. */
  lemma SameFrameKeepsWellFormed<T>(b: Box<T>, b': Box<T>)
    requires WellFormed(b) && SameFrame(b, b')
    ensures WellFormed(b')
  {
  }
}
