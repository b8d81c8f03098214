/**
 Concrete boxes from the library's test-suite, worked through the model,
 and the laws of the current-lesson setter. Cards are strings; a string is
 truthy exactly when it is not empty, as in JavaScript.
 */
module Scenarios {
  import opened Utils
  import opened Types
  import opened Cards
  import opened Lenses
  import opened Functions
  import opened Properties

  predicate NonEmpty(s: string)
  {
    s != ""
  }

  /** A box with no settings: three repetitions, a ring of ten empty slots,
      lesson 0; slot 0 is due on lessons 2, 5, 9 and slot 9 on 1, 4, 8, each
      row led by the slot itself. */
  lemma DefaultBox()
    ensures var b := CreateLeitnerBox<string>(Config(None, None, None));
            && b.repetitions == 3 && b.count == 10 && b.currentLesson == 0
            && b.decks.unknown == [] && b.decks.learned == []
            && |b.decks.lessons| == 10
            && (forall i :: 0 <= i < 10 ==> b.decks.lessons[i].cards == [])
            && b.decks.lessons[0] == Lesson([0, 2, 5, 9], [])
            && b.decks.lessons[9] == Lesson([9, 1, 4, 8], [])
            && b.decks.lessons[0].repeatOn[1..] == [2, 5, 9]
            && b.decks.lessons[9].repeatOn[1..] == [1, 4, 8]
  {
    var b := CreateLeitnerBox<string>(Config(None, None, None));
    TestedScheduleExamples();
    assert b.count == 10;
    assert b.decks.lessons[0].repeatOn == RepeatRow(10, 0, 3);
    assert b.decks.lessons[9].repeatOn == RepeatRow(10, 9, 3);
  }

  /** The eight initial decks of the test-suite with two repetitions: the
      first is the unknown deck, the last the learned deck, and the six in
      between fill the ring in order. */
  lemma InitialDecksBox()
    ensures var decks := [["unk", "nown"], ["a", "b"], ["c", "d"], [], [], ["e"], ["f", "g"], ["lea", "rnd"]];
            var b := CreateLeitnerBox(Config(Some(2), None, Some(decks)));
            && b.count == 6 && b.currentLesson == 0
            && b.decks.unknown == ["unk", "nown"]
            && b.decks.learned == ["lea", "rnd"]
            && |b.decks.lessons| == 6
            && (forall i :: 0 <= i < 6 ==> b.decks.lessons[i].cards == decks[i + 1])
            && b.decks.lessons[0] == Lesson([0, 2, 5], ["a", "b"])
            && b.decks.lessons[5] == Lesson([5, 1, 4], ["f", "g"])
  {
    var decks := [["unk", "nown"], ["a", "b"], ["c", "d"], [], [], ["e"], ["f", "g"], ["lea", "rnd"]];
    FibSmallValues();
    TestedScheduleExamples();
    var b := CreateLeitnerBox(Config(Some(2), None, Some(decks)));
    assert b.decks.lessons[0].repeatOn == RepeatRow(6, 0, 2);
    assert b.decks.lessons[5].repeatOn == RepeatRow(6, 5, 2);
  }

  /** The box with one repetition (a ring of three slots) and a single card
      "a" in slot 1. */
  function CardInSlotOne(): (b: Box<string>)
    ensures WellFormed(b) && b.count == 3 && b.currentLesson == 0
    ensures b.decks.unknown == [] && b.decks.learned == []
    ensures b.decks.lessons[0].cards == [] && b.decks.lessons[1].cards == ["a"]
            && b.decks.lessons[2].cards == []
    ensures AllCards(b) == ["a"]
  {
    var b := CreateLeitnerBox(Config(Some(1), Some(0), Some([[], [], ["a"], [], []])));
    assert b.decks.lessons[0].cards == [] && b.decks.lessons[1].cards == ["a"] && b.decks.lessons[2].cards == [];
    assert LessonCards(b.decks.lessons[2..]) == [];
    assert LessonCards(b.decks.lessons[1..]) == ["a"];
    b
  }

  /** "a" is the only card of the box and the locator settles on slot 1. */
  lemma CardInSlotOneLocated()
    ensures Located(CardInSlotOne(), LessonDeck(1), (c: string) => c == "a", NonEmpty)
    ensures Matching(AllCards(CardInSlotOne()), (c: string) => c == "a") == ["a"]
  {
    var b := CardInSlotOne();
    var identity := (c: string) => c == "a";
    assert Matching(["a"], identity) == ["a"];
    assert b.decks.lessons[1].cards == ["a"];
    UniqueCardDeck(LessonDeck(1), b, identity, NonEmpty, "a");
  }

  /** Moving "a" out of slot 1 to the unknown deck leaves every slot empty. */
  lemma MoveOutOfLessonsToUnknown()
    ensures var b := CardInSlotOne();
            var r := MoveToUnknown(b, (c: string) => c == "a", NonEmpty);
            && r.decks.unknown == ["a"]
            && forall k :: 0 <= k < |r.decks.lessons| ==> r.decks.lessons[k].cards == []
  {
    var b := CardInSlotOne();
    var identity := (c: string) => c == "a";
    CardInSlotOneLocated();
    RelocateFound(UnknownDeck, LessonDeck(1), b, identity, NonEmpty);
    MovesAreRelocations(b, identity, NonEmpty);
    assert Reject(["a"], identity) == [];
    var r := MoveToUnknown(b, identity, NonEmpty);
    forall k | 0 <= k < |r.decks.lessons|
      ensures r.decks.lessons[k].cards == []
    {
      assert ViewDeck(r, LessonDeck(k)) == r.decks.lessons[k].cards;
      if k != 1 {
        assert ViewDeck(b, LessonDeck(k)) == b.decks.lessons[k].cards == [];
      }
    }
  }

  /** Moving "a" out of slot 1 to the current lesson puts it in slot 0. */
  lemma MoveOutOfLessonsToLesson()
    ensures var b := CardInSlotOne();
            var r := MoveToLessons(b, (c: string) => c == "a", NonEmpty);
            r.decks.lessons[1].cards == [] && r.decks.lessons[0].cards == ["a"]
  {
    var b := CardInSlotOne();
    var identity := (c: string) => c == "a";
    CardInSlotOneLocated();
    RelocateFound(LessonDeck(0), LessonDeck(1), b, identity, NonEmpty);
    MoveToLessonsIsRelocation(b, identity, NonEmpty);
    assert Reject(["a"], identity) == [];
    var r := MoveToLessons(b, identity, NonEmpty);
    assert ViewDeck(r, LessonDeck(0)) == r.decks.lessons[0].cards;
    assert ViewDeck(r, LessonDeck(1)) == r.decks.lessons[1].cards;
  }

  /** Looking for "b", which the box does not hold: every move returns the
      box unchanged. */
  lemma MoveMissingCard()
    ensures var b := CardInSlotOne();
            var identity := (c: string) => c == "b";
            && MoveToUnknown(b, identity, NonEmpty) == b
            && MoveToLearned(b, identity, NonEmpty) == b
            && MoveToLessons(b, identity, NonEmpty) == b
  {
    var b := CardInSlotOne();
    var identity := (c: string) => c == "b";
    assert Matching(AllCards(b), identity) == [];
    NoMatchNotFound(b, identity, NonEmpty);
    MoveNotFound(b, identity, NonEmpty);
  }

  /** The setter and the field read back agree, a second write wins over
      the first, and only the current lesson changes, so a well-formed
      box stays well-formed. */
  lemma SetCurrentLessonLaws<T>(b: Box<T>, m: int, n: int)
    ensures SetCurrentLesson(b, b.currentLesson) == b
    ensures SetCurrentLesson(SetCurrentLesson(b, m), n) == SetCurrentLesson(b, n)
    ensures SetCurrentLesson(b, n).currentLesson == n
    ensures WellFormed(b) ==> WellFormed(SetCurrentLesson(b, n))
  {
  }
}
