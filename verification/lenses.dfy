/**
 Typed replacements for the library's lens paths into a box: the unknown
 deck, the learned deck and the cards of one lesson slot, each read with
 `ViewDeck` and replaced with `SetDeck`, copying everything else.
 */
module Lenses {
  import opened Types
  import opened Cards

  /** Where a lens points: `decks.unknown`, `decks.learned` or
      `decks.lessons[index].cards`. */
  datatype Target = UnknownDeck | LearnedDeck | LessonDeck(index: int)

  /** The lens points at a deck the box has. */
  predicate ValidTarget<T>(b: Box<T>, t: Target)
  {
    t.LessonDeck? ==> 0 <= t.index < |b.decks.lessons|
  }

  function ViewDeck<T>(b: Box<T>, t: Target): seq<T>
    requires ValidTarget(b, t)
  {
    match t
    case UnknownDeck => b.decks.unknown
    case LearnedDeck => b.decks.learned
    case LessonDeck(k) => b.decks.lessons[k].cards
  }

  /** Every deck the box has, other than the one `t` points at, reads the
      same in `b` and `b'`. */
  ghost predicate Untouched<T>(b: Box<T>, b': Box<T>, t: Target)
    requires |b'.decks.lessons| == |b.decks.lessons|
  {
    forall t' :: ValidTarget(b, t') && t' != t ==> ViewDeck(b', t') == ViewDeck(b, t')
  }

  /** The box with the deck `t` points at replaced by `d`: that deck reads
      `d` afterwards, and nothing else changes. */
  function SetDeck<T>(b: Box<T>, t: Target, d: seq<T>): (r: Box<T>)
    requires ValidTarget(b, t)
    ensures SameFrame(b, r)
    ensures ViewDeck(r, t) == d
    ensures Untouched(b, r, t)
  {
    match t
    case UnknownDeck => b.(decks := b.decks.(unknown := d))
    case LearnedDeck => b.(decks := b.decks.(learned := d))
    case LessonDeck(k) =>
      var lessons := b.decks.lessons;
      b.(decks := b.decks.(lessons := lessons[k := lessons[k].(cards := d)]))
  }

  /** Writing back what was read changes nothing. */
  lemma SetDeckViewed<T>(b: Box<T>, t: Target)
    requires ValidTarget(b, t)
    ensures SetDeck(b, t, ViewDeck(b, t)) == b
  {
    if t.LessonDeck? {
      assert b.decks.lessons[t.index := b.decks.lessons[t.index]] == b.decks.lessons;
    }
  }

  /** The position of a deck in the order the card locator searches:
      unknown, then learned, then the lesson slots by ascending index. */
  function SearchRank(t: Target): int
  {
    match t
    case UnknownDeck => 0
    case LearnedDeck => 1
    case LessonDeck(k) => k + 2
  }

  /** The cards of all lesson slots, in slot order. */
  function LessonCards<T>(lessons: seq<Lesson<T>>): seq<T>
  {
    if |lessons| == 0 then [] else lessons[0].cards + LessonCards(lessons[1..])
  }

  /** Every card in the box: unknown, learned, then the lesson slots. */
  function AllCards<T>(b: Box<T>): seq<T>
  {
    b.decks.unknown + b.decks.learned + LessonCards(b.decks.lessons)
  }

  /** Replacing the cards of one slot swaps that slot's cards in the
      multiset of all lesson cards. */
  lemma {:induction false} LessonCardsUpdate<T>(lessons: seq<Lesson<T>>, k: nat, d: seq<T>)
    requires k < |lessons|
    ensures multiset(LessonCards(lessons[k := lessons[k].(cards := d)])) + multiset(lessons[k].cards)
            == multiset(LessonCards(lessons)) + multiset(d)
  {
    var updated := lessons[k := lessons[k].(cards := d)];
    if k == 0 {
      assert updated[1..] == lessons[1..];
    } else {
      var tail := lessons[1..];
      var rest := tail[k - 1 := tail[k - 1].(cards := d)];
      assert tail[k - 1] == lessons[k];
      assert updated[1..] == rest;
      assert updated[0] == lessons[0];
      LessonCardsUpdate(tail, k - 1, d);
      assert multiset(LessonCards(rest)) + multiset(tail[k - 1].cards)
             == multiset(LessonCards(tail)) + multiset(d);
      calc {
        multiset(LessonCards(updated)) + multiset(lessons[k].cards);
        multiset(lessons[0].cards) + (multiset(LessonCards(rest)) + multiset(tail[k - 1].cards));
        multiset(lessons[0].cards) + (multiset(LessonCards(tail)) + multiset(d));
        multiset(LessonCards(lessons)) + multiset(d);
      }
    }
  }

  /** A slot holds no more matching cards than all lesson slots together. */
  lemma {:induction false} LessonMatchingBound<T>(lessons: seq<Lesson<T>>, k: nat, identity: T -> bool)
    requires k < |lessons|
    ensures |Matching(lessons[k].cards, identity)| <= |Matching(LessonCards(lessons), identity)|
  {
    MatchingAppend(lessons[0].cards, LessonCards(lessons[1..]), identity);
    if k > 0 {
      LessonMatchingBound(lessons[1..], k - 1, identity);
    }
  }

  /** Replacing a deck swaps its cards in the multiset of all cards of the box. */
  lemma SetDeckCards<T>(b: Box<T>, t: Target, d: seq<T>)
    requires ValidTarget(b, t)
    ensures multiset(AllCards(SetDeck(b, t, d))) + multiset(ViewDeck(b, t))
            == multiset(AllCards(b)) + multiset(d)
  {
    match t
    case UnknownDeck => SetUnknownCards(b, d);
    case LearnedDeck => SetLearnedCards(b, d);
    case LessonDeck(k) => SetLessonCards(b, k, d);
  }

  lemma SetUnknownCards<T>(b: Box<T>, d: seq<T>)
    ensures multiset(AllCards(SetDeck(b, UnknownDeck, d))) + multiset(b.decks.unknown)
            == multiset(AllCards(b)) + multiset(d)
  {
    var l, rest := b.decks.learned, LessonCards(b.decks.lessons);
    assert AllCards(SetDeck(b, UnknownDeck, d)) == d + l + rest;
    assert AllCards(b) == b.decks.unknown + l + rest;
  }

  lemma SetLearnedCards<T>(b: Box<T>, d: seq<T>)
    ensures multiset(AllCards(SetDeck(b, LearnedDeck, d))) + multiset(b.decks.learned)
            == multiset(AllCards(b)) + multiset(d)
  {
    var u, rest := b.decks.unknown, LessonCards(b.decks.lessons);
    assert AllCards(SetDeck(b, LearnedDeck, d)) == u + d + rest;
    assert AllCards(b) == u + b.decks.learned + rest;
  }

  lemma SetLessonCards<T>(b: Box<T>, k: int, d: seq<T>)
    requires 0 <= k < |b.decks.lessons|
    ensures multiset(AllCards(SetDeck(b, LessonDeck(k), d))) + multiset(b.decks.lessons[k].cards)
            == multiset(AllCards(b)) + multiset(d)
  {
    var u, l, lessons := b.decks.unknown, b.decks.learned, b.decks.lessons;
    var updated := lessons[k := lessons[k].(cards := d)];
    LessonCardsUpdate(lessons, k, d);
    assert AllCards(SetDeck(b, LessonDeck(k), d)) == u + l + LessonCards(updated);
    calc {
      multiset(AllCards(SetDeck(b, LessonDeck(k), d))) + multiset(lessons[k].cards);
      multiset(u) + multiset(l) + (multiset(LessonCards(updated)) + multiset(lessons[k].cards));
      multiset(u) + multiset(l) + (multiset(LessonCards(lessons)) + multiset(d));
    }
  }

  /** No deck of the box holds more matching cards than the whole box. */
  lemma DeckMatchingBound<T>(b: Box<T>, t: Target, identity: T -> bool)
    requires ValidTarget(b, t)
    ensures |Matching(ViewDeck(b, t), identity)| <= |Matching(AllCards(b), identity)|
  {
    var u, l, ls := b.decks.unknown, b.decks.learned, LessonCards(b.decks.lessons);
    MatchingAppend(u, l, identity);
    MatchingAppend(u + l, ls, identity);
    if t.LessonDeck? {
      LessonMatchingBound(b.decks.lessons, t.index, identity);
    }
  }

  /** Adding the same multiset on both sides can be undone. */
  lemma MultisetCancel<T>(a: multiset<T>, b: multiset<T>, v: multiset<T>)
    requires a + v == b + v
    ensures a == b
  {
    forall x
      ensures a[x] == b[x]
    {
      assert (a + v)[x] == (b + v)[x];
    }
  }

  /** Emptying a deck removes exactly its cards from the box. */
  lemma EmptyDeckCards<T>(b: Box<T>, t: Target)
    requires ValidTarget(b, t)
    ensures multiset(AllCards(SetDeck(b, t, []))) + multiset(ViewDeck(b, t)) == multiset(AllCards(b))
  {
    var none: seq<T> := [];
    SetDeckCards(b, t, none);
    assert multiset(none) == multiset{};
  }

  /** The cards of any one deck are among the cards of the box. */
  lemma DeckInBox<T>(b: Box<T>, t: Target)
    requires ValidTarget(b, t)
    ensures multiset(ViewDeck(b, t)) <= multiset(AllCards(b))
    ensures forall x :: x in ViewDeck(b, t) ==> x in AllCards(b)
  {
    var rest := multiset(AllCards(SetDeck(b, t, [])));
    EmptyDeckCards(b, t);
    MultisetPartLe(multiset(ViewDeck(b, t)), rest, multiset(AllCards(b)));
    forall x | x in ViewDeck(b, t)
      ensures x in AllCards(b)
    {
      assert x in multiset(ViewDeck(b, t));
    }
  }

  /** The cards of two different decks are disjoint parts of the cards of the box. */
  lemma TwoDecksInBox<T>(b: Box<T>, s: Target, t: Target)
    requires ValidTarget(b, s) && ValidTarget(b, t) && s != t
    ensures multiset(ViewDeck(b, s)) + multiset(ViewDeck(b, t)) <= multiset(AllCards(b))
  {
    var emptied := SetDeck(b, s, []);
    EmptyDeckCards(b, s);
    assert ViewDeck(emptied, t) == ViewDeck(b, t);
    DeckInBox(emptied, t);
    var inS, inT := multiset(ViewDeck(b, s)), multiset(ViewDeck(b, t));
    var rest := multiset(AllCards(emptied));
    MultisetAddLe(inT, rest, inS);
  }

  /** A part of a multiset sum is below the sum. */
  lemma MultisetPartLe<T>(a: multiset<T>, b: multiset<T>, c: multiset<T>)
    requires a + b == c
    ensures a <= c
  {
  }

  /** Adding the same multiset keeps an inclusion. */
  lemma MultisetAddLe<T>(a: multiset<T>, b: multiset<T>, c: multiset<T>)
    requires a <= b
    ensures c + a <= c + b
  {
  }

  /** A card of some lesson slot. */
  lemma {:induction false} LessonCardsMember<T>(lessons: seq<Lesson<T>>, x: T)
    requires x in LessonCards(lessons)
    ensures exists k :: 0 <= k < |lessons| && x in lessons[k].cards
  {
    if x !in lessons[0].cards {
      LessonCardsMember(lessons[1..], x);
      var k :| 0 <= k < |lessons[1..]| && x in lessons[1..][k].cards;
      assert x in lessons[k + 1].cards;
    }
  }

  /** Every card of the box lies in one of its decks. */
  lemma CardInSomeDeck<T>(b: Box<T>, x: T)
    requires x in AllCards(b)
    ensures exists t :: ValidTarget(b, t) && x in ViewDeck(b, t)
  {
    if x in b.decks.unknown {
      assert ViewDeck(b, UnknownDeck) == b.decks.unknown;
    } else if x in b.decks.learned {
      assert ViewDeck(b, LearnedDeck) == b.decks.learned;
    } else {
      LessonCardsMember(b.decks.lessons, x);
      var k :| 0 <= k < |b.decks.lessons| && x in b.decks.lessons[k].cards;
      assert ValidTarget(b, LessonDeck(k)) && ViewDeck(b, LessonDeck(k)) == b.decks.lessons[k].cards;
    }
  }

  /** Keeping only part of deck `s` removes the other part from the box. */
  lemma KeepPartCards<T>(b: Box<T>, s: Target, kept: seq<T>, removed: seq<T>)
    requires ValidTarget(b, s)
    requires multiset(kept) + multiset(removed) == multiset(ViewDeck(b, s))
    ensures multiset(AllCards(SetDeck(b, s, kept))) + multiset(removed) == multiset(AllCards(b))
  {
    var after := multiset(AllCards(SetDeck(b, s, kept)));
    SetDeckCards(b, s, kept);
    assert (after + multiset(removed)) + multiset(kept) == multiset(AllCards(b)) + multiset(kept);
    MultisetCancel(after + multiset(removed), multiset(AllCards(b)), multiset(kept));
  }

  /** Appending a card to a deck adds exactly that card to the box. */
  lemma AppendCardCards<T>(b: Box<T>, t: Target, c: T)
    requires ValidTarget(b, t)
    ensures multiset(AllCards(SetDeck(b, t, ViewDeck(b, t) + [c]))) == multiset(AllCards(b)) + multiset{c}
  {
    var d := ViewDeck(b, t) + [c];
    var before := multiset(ViewDeck(b, t));
    var r := multiset(AllCards(SetDeck(b, t, d)));
    SetDeckCards(b, t, d);
    assert multiset(d) == before + multiset{c};
    assert r + before == (multiset(AllCards(b)) + multiset{c}) + before;
    MultisetCancel(r, multiset(AllCards(b)) + multiset{c}, before);
  }

  /** Splitting deck `s` into the cards kept and the cards removed, then
      appending `c` to deck `t`: the box loses the removed cards and gains `c`. */
  lemma RemoveThenAppendCards<T>(b: Box<T>, s: Target, t: Target, kept: seq<T>, removed: seq<T>, c: T)
    requires ValidTarget(b, s) && ValidTarget(b, t)
    requires multiset(kept) + multiset(removed) == multiset(ViewDeck(b, s))
    ensures var after := SetDeck(b, s, kept);
            multiset(AllCards(SetDeck(after, t, ViewDeck(after, t) + [c]))) + multiset(removed)
            == multiset(AllCards(b)) + multiset{c}
  {
    var after := SetDeck(b, s, kept);
    KeepPartCards(b, s, kept, removed);
    AppendCardCards(after, t, c);
  }
}
