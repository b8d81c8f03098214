/**
 What the locate-and-remove protocol and the moves built on it promise:
 the fixed search order, the no-op when nothing is found, and, when one
 card is the only match in the box, that a move relocates exactly that
 card to the end of its target deck and keeps every card of the box.
 */
module Properties {
  import opened Utils
  import opened Types
  import opened Cards
  import opened Lenses
  import opened Functions

  /** The locator settles on deck `t`: it accepts `t` and no deck it
      searches before `t`. */
  ghost predicate Located<T>(b: Box<T>, t: Target, identity: T -> bool, truthy: T -> bool)
  {
    && ValidTarget(b, t)
    && Yields(ViewDeck(b, t), identity, truthy)
    && forall t' :: ValidTarget(b, t') && SearchRank(t') < SearchRank(t) ==>
         !Yields(ViewDeck(b, t'), identity, truthy)
  }

  /** Some deck of the box is accepted by the locator. */
  ghost predicate Found<T>(b: Box<T>, identity: T -> bool, truthy: T -> bool)
  {
    exists t :: ValidTarget(b, t) && Yields(ViewDeck(b, t), identity, truthy)
  }

  /** Removing the located card and appending it to deck `t`: the common
      shape of the three moves. */
  function Relocate<T>(t: Target, b: Box<T>, identity: T -> bool, truthy: T -> bool): (r: Box<T>)
    requires RemoveCard(b, identity, truthy).1.Some? ==> ValidTarget(b, t)
  {
    var (after, card) := RemoveCard(b, identity, truthy);
    AddCardTo(t, after, card, truthy)
  }

  /** Among slots up to `k`, one accepted slot comes first. */
  lemma FirstYieldingSlot<T>(lessons: seq<Lesson<T>>, identity: T -> bool, truthy: T -> bool, k: nat)
    requires k < |lessons| && Yields(lessons[k].cards, identity, truthy)
    ensures exists m :: 0 <= m <= k && Yields(lessons[m].cards, identity, truthy)
                        && forall m' :: 0 <= m' < m ==> !Yields(lessons[m'].cards, identity, truthy)
    decreases k
  {
    if exists m' :: 0 <= m' < k && Yields(lessons[m'].cards, identity, truthy) {
      var m' :| 0 <= m' < k && Yields(lessons[m'].cards, identity, truthy);
      FirstYieldingSlot(lessons, identity, truthy, m');
    }
  }

  /** When some deck is accepted, the locator settles on one. */
  lemma LocatedExists<T>(b: Box<T>, identity: T -> bool, truthy: T -> bool)
    requires Found(b, identity, truthy)
    ensures exists t :: Located(b, t, identity, truthy)
  {
    var t0 :| ValidTarget(b, t0) && Yields(ViewDeck(b, t0), identity, truthy);
    if Yields(b.decks.unknown, identity, truthy) {
      LocatedFirstDeck(b, UnknownDeck, identity, truthy);
    } else if Yields(b.decks.learned, identity, truthy) {
      LocatedFirstDeck(b, LearnedDeck, identity, truthy);
    } else {
      assert t0.LessonDeck?;
      LocatedFirstSlot(b, t0.index, identity, truthy);
    }
  }

  /** An accepted unknown deck, or an accepted learned deck behind a
      rejected unknown deck, is where the locator settles. */
  lemma LocatedFirstDeck<T>(b: Box<T>, t: Target, identity: T -> bool, truthy: T -> bool)
    requires t == UnknownDeck || (t == LearnedDeck && !Yields(b.decks.unknown, identity, truthy))
    requires Yields(ViewDeck(b, t), identity, truthy)
    ensures Located(b, t, identity, truthy)
  {
    forall t' | ValidTarget(b, t') && SearchRank(t') < SearchRank(t)
      ensures !Yields(ViewDeck(b, t'), identity, truthy)
    {
      assert t' == UnknownDeck;
    }
  }

  /** Behind rejected unknown and learned decks, the first accepted slot at
      or before an accepted slot `k` is where the locator settles. */
  lemma LocatedFirstSlot<T>(b: Box<T>, k: nat, identity: T -> bool, truthy: T -> bool)
    requires !Yields(b.decks.unknown, identity, truthy) && !Yields(b.decks.learned, identity, truthy)
    requires k < |b.decks.lessons| && Yields(b.decks.lessons[k].cards, identity, truthy)
    ensures exists m :: Located(b, LessonDeck(m), identity, truthy)
  {
    var lessons := b.decks.lessons;
    FirstYieldingSlot(lessons, identity, truthy, k);
    var m :| 0 <= m <= k && Yields(lessons[m].cards, identity, truthy)
             && forall m' :: 0 <= m' < m ==> !Yields(lessons[m'].cards, identity, truthy);
    forall t' | ValidTarget(b, t') && SearchRank(t') < SearchRank(LessonDeck(m))
      ensures !Yields(ViewDeck(b, t'), identity, truthy)
    {
      if t'.LessonDeck? {
        assert ViewDeck(b, t') == lessons[t'.index].cards;
      }
    }
    assert Located(b, LessonDeck(m), identity, truthy);
  }

  /** The search order: when the locator settles on deck `t`, removeCard
      returns the first matching card of `t` and the box with every
      matching card of `t` removed, and nothing else changed. */
  lemma RemoveCardSearchOrder<T>(b: Box<T>, t: Target, identity: T -> bool, truthy: T -> bool)
    requires Located(b, t, identity, truthy)
    ensures var r := RemoveCard(b, identity, truthy);
            && r.1 == FindFirst(ViewDeck(b, t), identity)
            && r.0 == SetDeck(b, t, Reject(ViewDeck(b, t), identity))
            && SameFrame(b, r.0)
            && ViewDeck(r.0, t) == Reject(ViewDeck(b, t), identity)
            && Untouched(b, r.0, t)
  {
    var lessons := b.decks.lessons;
    if !t.UnknownDeck? {
      assert ValidTarget(b, UnknownDeck) && SearchRank(UnknownDeck) < SearchRank(t);
      assert !Yields(ViewDeck(b, UnknownDeck), identity, truthy);
    }
    if t.LessonDeck? {
      assert ValidTarget(b, LearnedDeck) && SearchRank(LearnedDeck) < SearchRank(t);
      assert !Yields(ViewDeck(b, LearnedDeck), identity, truthy);
      forall k' | 0 <= k' < t.index
        ensures !Yields(lessons[k'].cards, identity, truthy)
      {
        assert ValidTarget(b, LessonDeck(k')) && SearchRank(LessonDeck(k')) < SearchRank(t);
        assert ViewDeck(b, LessonDeck(k')) == lessons[k'].cards;
      }
    }
  }

  /** removeCard finds a card exactly when some deck is accepted; when none
      is, it returns the box unchanged and no card. */
  lemma RemoveCardNotFound<T>(b: Box<T>, identity: T -> bool, truthy: T -> bool)
    ensures RemoveCard(b, identity, truthy).1.None? <==> !Found(b, identity, truthy)
    ensures !Found(b, identity, truthy) ==> RemoveCard(b, identity, truthy) == (b, None)
  {
    if Found(b, identity, truthy) {
      LocatedExists(b, identity, truthy);
      var t :| Located(b, t, identity, truthy);
      RemoveCardSearchOrder(b, t, identity, truthy);
    } else {
      assert ValidTarget(b, UnknownDeck) && ValidTarget(b, LearnedDeck);
      forall k | 0 <= k < |b.decks.lessons|
        ensures !Yields(b.decks.lessons[k].cards, identity, truthy)
      {
        assert ValidTarget(b, LessonDeck(k));
        assert ViewDeck(b, LessonDeck(k)) == b.decks.lessons[k].cards;
      }
    }
  }

  /** Each move is a relocation to its own target deck; the lesson target
      is the current lesson's slot. */
  lemma MovesAreRelocations<T>(b: Box<T>, identity: T -> bool, truthy: T -> bool)
    ensures MoveToUnknown(b, identity, truthy) == Relocate(UnknownDeck, b, identity, truthy)
    ensures MoveToLearned(b, identity, truthy) == Relocate(LearnedDeck, b, identity, truthy)
    ensures RemoveCard(b, identity, truthy).1.Some? ==> 0 <= b.currentLesson < |b.decks.lessons| ==>
              MoveToLessons(b, identity, truthy) == Relocate(LessonDeck(b.currentLesson), b, identity, truthy)
  {
  }

  /** moveToLessons is a relocation to the current lesson's slot when that
      is a slot of the box. */
  lemma MoveToLessonsIsRelocation<T>(b: Box<T>, identity: T -> bool, truthy: T -> bool)
    requires 0 <= b.currentLesson < |b.decks.lessons|
    ensures MoveToLessons(b, identity, truthy) == Relocate(LessonDeck(b.currentLesson), b, identity, truthy)
  {
  }

  /** A move whose identity matches no card the locator accepts returns
      its input unchanged. */
  lemma MoveNotFound<T>(b: Box<T>, identity: T -> bool, truthy: T -> bool)
    requires !Found(b, identity, truthy)
    ensures MoveToUnknown(b, identity, truthy) == b
    ensures MoveToLearned(b, identity, truthy) == b
    ensures MoveToLessons(b, identity, truthy) == b
  {
    RemoveCardNotFound(b, identity, truthy);
  }

  /** A box holding no matching card has no deck the locator accepts. */
  lemma NoMatchNotFound<T>(b: Box<T>, identity: T -> bool, truthy: T -> bool)
    requires |Matching(AllCards(b), identity)| == 0
    ensures !Found(b, identity, truthy)
  {
    forall t | ValidTarget(b, t)
      ensures !Yields(ViewDeck(b, t), identity, truthy)
    {
      DeckMatchingBound(b, t, identity);
      FindFirstHeadsMatching(ViewDeck(b, t), identity);
    }
  }

  /** Relocating from the located deck `s` to deck `t`: the card lands at
      the end of `t`, `s` loses every matching card and every other deck is
      unchanged. */
  lemma RelocateFound<T>(t: Target, s: Target, b: Box<T>, identity: T -> bool, truthy: T -> bool)
    requires Located(b, s, identity, truthy) && ValidTarget(b, t)
    ensures var r := Relocate(t, b, identity, truthy);
            var c := FindFirst(ViewDeck(b, s), identity).value;
            && SameFrame(b, r)
            && ViewDeck(r, t) == (if s == t then Reject(ViewDeck(b, t), identity) else ViewDeck(b, t)) + [c]
            && (s != t ==> ViewDeck(r, s) == Reject(ViewDeck(b, s), identity))
            && (forall t' :: ValidTarget(b, t') && t' != s && t' != t ==> ViewDeck(r, t') == ViewDeck(b, t'))
  {
    RemoveCardSearchOrder(b, s, identity, truthy);
    var after := RemoveCard(b, identity, truthy).0;
    var c := FindFirst(ViewDeck(b, s), identity).value;
    assert Relocate(t, b, identity, truthy) == SetDeck(after, t, ViewDeck(after, t) + [c]);
  }

  /** Relocating from the located deck `s`: the cards of the box lose the
      matching cards of `s` and gain the one card the locator returned. */
  lemma RelocateFoundCards<T>(t: Target, s: Target, b: Box<T>, identity: T -> bool, truthy: T -> bool)
    requires Located(b, s, identity, truthy) && ValidTarget(b, t)
    ensures var r := Relocate(t, b, identity, truthy);
            var c := FindFirst(ViewDeck(b, s), identity).value;
            multiset(AllCards(r)) + multiset(Matching(ViewDeck(b, s), identity))
            == multiset(AllCards(b)) + multiset{c}
  {
    RemoveCardSearchOrder(b, s, identity, truthy);
    var deck := ViewDeck(b, s);
    var c := FindFirst(deck, identity).value;
    var after := SetDeck(b, s, Reject(deck, identity));
    assert Relocate(t, b, identity, truthy) == SetDeck(after, t, ViewDeck(after, t) + [c]);
    RejectPartition(deck, identity);
    RemoveThenAppendCards(b, s, t, Reject(deck, identity), Matching(deck, identity), c);
  }

  /** The only matching card of a deck with one match is its first match. */
  lemma SingleMatchOfDeck<T>(deck: seq<T>, identity: T -> bool)
    requires FindFirst(deck, identity).Some? && |Matching(deck, identity)| <= 1
    ensures Matching(deck, identity) == [FindFirst(deck, identity).value]
  {
    FindFirstHeadsMatching(deck, identity);
  }

  /** With at most one matching card in the box, a relocation keeps the
      multiset of all cards of the box. */
  lemma RelocatePreservesCards<T>(t: Target, b: Box<T>, identity: T -> bool, truthy: T -> bool)
    requires |Matching(AllCards(b), identity)| <= 1
    requires RemoveCard(b, identity, truthy).1.Some? ==> ValidTarget(b, t)
    ensures multiset(AllCards(Relocate(t, b, identity, truthy))) == multiset(AllCards(b))
  {
    RemoveCardNotFound(b, identity, truthy);
    if Found(b, identity, truthy) {
      LocatedExists(b, identity, truthy);
      var s :| Located(b, s, identity, truthy);
      RelocateFoundCards(t, s, b, identity, truthy);
      DeckMatchingBound(b, s, identity);
      SingleMatchOfDeck(ViewDeck(b, s), identity);
      var c := FindFirst(ViewDeck(b, s), identity).value;
      assert multiset(Matching(ViewDeck(b, s), identity)) == multiset{c};
      MultisetCancel(multiset(AllCards(Relocate(t, b, identity, truthy))), multiset(AllCards(b)), multiset{c});
    }
  }

  /** When at most one card of the box matches, every move keeps the
      multiset of all cards of the box (nothing is lost or duplicated). */
  lemma MovePreservesCards<T>(b: Box<T>, identity: T -> bool, truthy: T -> bool)
    requires |Matching(AllCards(b), identity)| <= 1
    ensures multiset(AllCards(MoveToUnknown(b, identity, truthy))) == multiset(AllCards(b))
    ensures multiset(AllCards(MoveToLearned(b, identity, truthy))) == multiset(AllCards(b))
    ensures 0 <= b.currentLesson < |b.decks.lessons| ==>
              multiset(AllCards(MoveToLessons(b, identity, truthy))) == multiset(AllCards(b))
  {
    MovesAreRelocations(b, identity, truthy);
    RelocatePreservesCards(UnknownDeck, b, identity, truthy);
    RelocatePreservesCards(LearnedDeck, b, identity, truthy);
    if 0 <= b.currentLesson < |b.decks.lessons| {
      RelocatePreservesCards(LessonDeck(b.currentLesson), b, identity, truthy);
    }
  }

  /** When `c` is the only matching card of the box and is truthy, the
      locator settles on a deck holding it, and finds `c` there. */
  lemma UniqueCardLocated<T>(b: Box<T>, identity: T -> bool, truthy: T -> bool, c: T)
    requires Matching(AllCards(b), identity) == [c] && truthy(c)
    ensures Found(b, identity, truthy)
    ensures forall s :: Located(b, s, identity, truthy) ==>
              FindFirst(ViewDeck(b, s), identity) == Some(c) && c in ViewDeck(b, s)
  {
    assert c in Matching(AllCards(b), identity);
    MatchingInDeck(AllCards(b), identity, c);
    CardInSomeDeck(b, c);
    var t0 :| ValidTarget(b, t0) && c in ViewDeck(b, t0);
    var v := FindFirst(ViewDeck(b, t0), identity);
    DeckInBox(b, t0);
    MatchingMember(AllCards(b), identity, v.value);
    assert Yields(ViewDeck(b, t0), identity, truthy);
    forall s | Located(b, s, identity, truthy)
      ensures FindFirst(ViewDeck(b, s), identity) == Some(c) && c in ViewDeck(b, s)
    {
      DeckInBox(b, s);
      MatchingMember(AllCards(b), identity, FindFirst(ViewDeck(b, s), identity).value);
    }
  }

  /** The one-matching-card move: the card ends up last in the target deck,
      and it is still the only matching card of the box, so it has left
      whichever deck it came from. */
  lemma RelocateUniqueCard<T>(t: Target, b: Box<T>, identity: T -> bool, truthy: T -> bool, c: T)
    requires Matching(AllCards(b), identity) == [c] && truthy(c)
    requires ValidTarget(b, t)
    ensures var r := Relocate(t, b, identity, truthy);
            && |ViewDeck(r, t)| > 0 && ViewDeck(r, t)[|ViewDeck(r, t)| - 1] == c
            && Matching(AllCards(r), identity) == [c]
            && multiset(AllCards(r)) == multiset(AllCards(b))
  {
    UniqueCardLocated(b, identity, truthy, c);
    LocatedExists(b, identity, truthy);
    var s :| Located(b, s, identity, truthy);
    RelocateFound(t, s, b, identity, truthy);
    RelocatePreservesCards(t, b, identity, truthy);
    var r := Relocate(t, b, identity, truthy);
    MatchingOfSameCards(AllCards(r), AllCards(b), identity);
    SingletonSeq(Matching(AllCards(r), identity), c);
  }

  /** moveToUnknown, for a box whose only matching card is `c`. */
  lemma MoveUniqueCardToUnknown<T>(b: Box<T>, identity: T -> bool, truthy: T -> bool, c: T)
    requires Matching(AllCards(b), identity) == [c] && truthy(c)
    ensures var r := MoveToUnknown(b, identity, truthy);
            && |r.decks.unknown| > 0 && r.decks.unknown[|r.decks.unknown| - 1] == c
            && Matching(AllCards(r), identity) == [c]
  {
    assert MoveToUnknown(b, identity, truthy) == Relocate(UnknownDeck, b, identity, truthy);
    RelocateUniqueCard(UnknownDeck, b, identity, truthy, c);
  }

  /** moveToLearned, for a box whose only matching card is `c`. */
  lemma MoveUniqueCardToLearned<T>(b: Box<T>, identity: T -> bool, truthy: T -> bool, c: T)
    requires Matching(AllCards(b), identity) == [c] && truthy(c)
    ensures var r := MoveToLearned(b, identity, truthy);
            && |r.decks.learned| > 0 && r.decks.learned[|r.decks.learned| - 1] == c
            && Matching(AllCards(r), identity) == [c]
  {
    assert MoveToLearned(b, identity, truthy) == Relocate(LearnedDeck, b, identity, truthy);
    RelocateUniqueCard(LearnedDeck, b, identity, truthy, c);
  }

  /** moveToLessons, for a box whose only matching card is `c` and whose
      current lesson is one of its slots. */
  lemma MoveUniqueCardToLessons<T>(b: Box<T>, identity: T -> bool, truthy: T -> bool, c: T)
    requires Matching(AllCards(b), identity) == [c] && truthy(c)
    requires 0 <= b.currentLesson < |b.decks.lessons|
    ensures var r := MoveToLessons(b, identity, truthy);
            var cards := r.decks.lessons[b.currentLesson].cards;
            && |cards| > 0 && cards[|cards| - 1] == c
            && Matching(AllCards(r), identity) == [c]
  {
    MoveToLessonsIsRelocation(b, identity, truthy);
    RelocateUniqueCard(LessonDeck(b.currentLesson), b, identity, truthy, c);
  }

  /** The only matching card of the box, when truthy, is located in the
      deck that holds it. */
  lemma UniqueCardDeck<T>(t: Target, b: Box<T>, identity: T -> bool, truthy: T -> bool, c: T)
    requires Matching(AllCards(b), identity) == [c] && truthy(c)
    requires ValidTarget(b, t) && c in ViewDeck(b, t)
    ensures Located(b, t, identity, truthy)
  {
    UniqueCardLocated(b, identity, truthy, c);
    LocatedExists(b, identity, truthy);
    var s :| Located(b, s, identity, truthy);
    UniqueCardInOneDeck(b, s, t, identity, c);
  }

  /** The only matching card of the box lies in one deck only. */
  lemma UniqueCardInOneDeck<T>(b: Box<T>, s: Target, t: Target, identity: T -> bool, c: T)
    requires Matching(AllCards(b), identity) == [c]
    requires ValidTarget(b, s) && c in ViewDeck(b, s)
    requires ValidTarget(b, t) && c in ViewDeck(b, t)
    ensures s == t
  {
    if s != t {
      var inS, inT := multiset(ViewDeck(b, s)), multiset(ViewDeck(b, t));
      var all := multiset(AllCards(b));
      TwoDecksInBox(b, s, t);
      assert inS[c] >= 1 && inT[c] >= 1;
      assert (inS + inT)[c] <= all[c];
      assert multiset(Matching(AllCards(b), identity)) == multiset{c};
      MatchingCount(AllCards(b), identity, c);
      assert false;
    }
  }

  /** Moving the only matching card into the deck that already holds it is
      not a no-op: the card is taken out and re-appended at the end. */
  lemma RelocateWithinDeck<T>(t: Target, b: Box<T>, identity: T -> bool, truthy: T -> bool,
                              pre: seq<T>, c: T, post: seq<T>)
    requires Matching(AllCards(b), identity) == [c] && truthy(c)
    requires ValidTarget(b, t) && ViewDeck(b, t) == pre + [c] + post
    ensures ViewDeck(Relocate(t, b, identity, truthy), t) == pre + post + [c]
  {
    assert c in ViewDeck(b, t);
    UniqueCardDeck(t, b, identity, truthy, c);
    UniqueCardLocated(b, identity, truthy, c);
    RelocateFound(t, t, b, identity, truthy);
    DeckMatchingBound(b, t, identity);
    RejectSingleMatchAt(pre, c, post, identity);
  }

  /** removeCard drops every matching card of the deck it settles on but
      returns only one of them: two matching cards in the unknown deck
      become a single card in the learned deck. */
  lemma MoveCollapsesDuplicates()
    ensures var identity := (x: int) => x == 7;
            var truthy := (x: int) => x != 0;
            var b := Box(1, 0, 0, Decks([7, 7], [], [Lesson([0], [])]));
            var r := MoveToLearned(b, identity, truthy);
            && r.decks.unknown == [] && r.decks.learned == [7]
            && |AllCards(r)| + 1 == |AllCards(b)|
  {
    var identity := (x: int) => x == 7;
    var truthy := (x: int) => x != 0;
    var b := Box(1, 0, 0, Decks([7, 7], [], [Lesson([0], [])]));
    assert FindFirst([7, 7], identity) == Some(7);
    assert Reject([7], identity) == [];
    assert Reject([7, 7], identity) == [];
    assert LessonCards(b.decks.lessons) == [];
  }
}
