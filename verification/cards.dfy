/**
 Card sequences searched and filtered by a caller-supplied identity
 predicate: the first match (the view through `lensMatchIdentity`), the
 matching cards, and everything but the matching cards (`R.reject`).
 */
module Cards {
  import opened Types

  /** The first card of `deck` the identity accepts, or `None`. */
  function FindFirst<T>(deck: seq<T>, identity: T -> bool): (r: Option<T>)
    ensures r.None? <==> forall k :: 0 <= k < |deck| ==> !identity(deck[k])
    ensures r.Some? ==> exists k :: 0 <= k < |deck| && deck[k] == r.value && identity(deck[k])
                          && forall k' :: 0 <= k' < k ==> !identity(deck[k'])
  {
    if |deck| == 0 then None
    else if identity(deck[0]) then Some(deck[0])
    else
      var r := FindFirst(deck[1..], identity);
      assert forall k :: 1 <= k < |deck| ==> deck[1..][k - 1] == deck[k];
      r
  }

  /** The cards of `deck` the identity accepts, in order. */
  function Matching<T>(deck: seq<T>, identity: T -> bool): (r: seq<T>)
    ensures forall k :: 0 <= k < |r| ==> identity(r[k])
    ensures |r| <= |deck|
  {
    if |deck| == 0 then []
    else (if identity(deck[0]) then [deck[0]] else []) + Matching(deck[1..], identity)
  }

  /** The cards of `deck` the identity rejects, in order (`R.reject`). */
  function Reject<T>(deck: seq<T>, identity: T -> bool): (r: seq<T>)
    ensures forall k :: 0 <= k < |r| ==> !identity(r[k])
    ensures |r| <= |deck|
    ensures (forall k :: 0 <= k < |deck| ==> !identity(deck[k])) ==> r == deck
  {
    if |deck| == 0 then []
    else
      var r := (if identity(deck[0]) then [] else [deck[0]]) + Reject(deck[1..], identity);
      assert deck == [deck[0]] + deck[1..];
      r
  }

  /** Rejecting splits a deck: the cards kept and the matching cards make
      up the deck's multiset. */
  lemma RejectPartition<T>(deck: seq<T>, identity: T -> bool)
    ensures multiset(Reject(deck, identity)) + multiset(Matching(deck, identity)) == multiset(deck)
  {
    var kept, matched := multiset(Reject(deck, identity)), multiset(Matching(deck, identity));
    forall x
      ensures (kept + matched)[x] == multiset(deck)[x]
    {
      RejectCount(deck, identity, x);
      MatchingCount(deck, identity, x);
    }
    MultisetExt(kept + matched, multiset(deck));
  }

  /** A card occurs among the kept cards exactly as often as in the deck
      when the identity refuses it, and not at all otherwise. */
  lemma {:induction false} RejectCount<T>(deck: seq<T>, identity: T -> bool, x: T)
    ensures multiset(Reject(deck, identity))[x] == if identity(x) then 0 else multiset(deck)[x]
  {
    if |deck| > 0 {
      assert deck == [deck[0]] + deck[1..];
      RejectCount(deck[1..], identity, x);
    }
  }

  /** The first match is the head of the matching cards. */
  lemma {:induction false} FindFirstHeadsMatching<T>(deck: seq<T>, identity: T -> bool)
    ensures FindFirst(deck, identity).Some? <==> |Matching(deck, identity)| > 0
    ensures FindFirst(deck, identity).Some? ==>
              Matching(deck, identity)[0] == FindFirst(deck, identity).value
  {
    if |deck| > 0 {
      if identity(deck[0]) {
        assert Matching(deck, identity) == [deck[0]] + Matching(deck[1..], identity);
      } else {
        FindFirstHeadsMatching(deck[1..], identity);
        assert Matching(deck, identity) == Matching(deck[1..], identity);
        assert FindFirst(deck, identity) == FindFirst(deck[1..], identity);
      }
    }
  }

  /** Selecting the matching cards distributes over concatenation. */
  lemma {:induction false} MatchingAppend<T>(a: seq<T>, b: seq<T>, identity: T -> bool)
    ensures Matching(a + b, identity) == Matching(a, identity) + Matching(b, identity)
  {
    if |a| > 0 {
      assert (a + b)[0] == a[0] && (a + b)[1..] == a[1..] + b;
      MatchingAppend(a[1..], b, identity);
      if identity(a[0]) {
        assert Matching(a + b, identity) == [a[0]] + Matching(a[1..] + b, identity);
        assert Matching(a, identity) == [a[0]] + Matching(a[1..], identity);
      } else {
        assert Matching(a + b, identity) == Matching(a[1..] + b, identity);
        assert Matching(a, identity) == Matching(a[1..], identity);
      }
    } else {
      assert a + b == b;
    }
  }

  /** Rejecting distributes over concatenation. */
  lemma {:induction false} RejectAppend<T>(a: seq<T>, b: seq<T>, identity: T -> bool)
    ensures Reject(a + b, identity) == Reject(a, identity) + Reject(b, identity)
  {
    if |a| > 0 {
      assert (a + b)[0] == a[0] && (a + b)[1..] == a[1..] + b;
      RejectAppend(a[1..], b, identity);
      if !identity(a[0]) {
        assert Reject(a + b, identity) == [a[0]] + Reject(a[1..] + b, identity);
        assert Reject(a, identity) == [a[0]] + Reject(a[1..], identity);
      } else {
        assert Reject(a + b, identity) == Reject(a[1..] + b, identity);
        assert Reject(a, identity) == Reject(a[1..], identity);
      }
    } else {
      assert a + b == b;
    }
  }

  /** A card occurs among the matching cards exactly as often as in the
      deck when the identity accepts it, and not at all otherwise. */
  lemma {:induction false} MatchingCount<T>(deck: seq<T>, identity: T -> bool, x: T)
    ensures multiset(Matching(deck, identity))[x] == if identity(x) then multiset(deck)[x] else 0
  {
    if |deck| > 0 {
      assert deck == [deck[0]] + deck[1..];
      MatchingCount(deck[1..], identity, x);
    }
  }

  /** Every card of `deck` the identity accepts is among the matching cards. */
  lemma MatchingMember<T>(deck: seq<T>, identity: T -> bool, x: T)
    requires x in deck && identity(x)
    ensures x in Matching(deck, identity)
  {
    MatchingCount(deck, identity, x);
    assert x in multiset(deck);
  }

  /** A matching card is a card of `deck` the identity accepts. */
  lemma MatchingInDeck<T>(deck: seq<T>, identity: T -> bool, x: T)
    requires x in Matching(deck, identity)
    ensures x in deck && identity(x)
  {
    MatchingCount(deck, identity, x);
    assert x in multiset(Matching(deck, identity));
  }

  /** Decks holding the same cards hold the same matching cards. */
  lemma MatchingOfSameCards<T>(a: seq<T>, b: seq<T>, identity: T -> bool)
    requires multiset(a) == multiset(b)
    ensures multiset(Matching(a, identity)) == multiset(Matching(b, identity))
  {
    var ma, mb := multiset(Matching(a, identity)), multiset(Matching(b, identity));
    forall x
      ensures ma[x] == mb[x]
    {
      MatchingCount(a, identity, x);
      MatchingCount(b, identity, x);
      assert multiset(a)[x] == multiset(b)[x];
    }
    MultisetExt(ma, mb);
  }

  /** Multisets with the same multiplicities are equal. */
  lemma MultisetExt<T>(a: multiset<T>, b: multiset<T>)
    requires forall x :: a[x] == b[x]
    ensures a == b
  {
  }

  /** A sequence holding exactly the one card `c` is `[c]`. */
  lemma SingletonSeq<T>(s: seq<T>, c: T)
    requires multiset(s) == multiset{c}
    ensures s == [c]
  {
    assert |s| == |multiset(s)| == 1;
    assert s[0] in multiset(s);
  }

  /** Rejecting the only matching card of a deck cuts exactly that card out. */
  lemma RejectSingleMatchAt<T>(pre: seq<T>, c: T, post: seq<T>, identity: T -> bool)
    requires identity(c) && |Matching(pre + [c] + post, identity)| <= 1
    ensures Reject(pre + [c] + post, identity) == pre + post
  {
    var mid := pre + [c];
    MatchingAppend(mid, post, identity);
    MatchingAppend(pre, [c], identity);
    assert Matching([c], identity) == [c];
    assert |Matching(mid + post, identity)|
           == |Matching(pre, identity)| + 1 + |Matching(post, identity)|;
    RejectNoMatch(pre, identity);
    RejectNoMatch(post, identity);
    RejectAppend(mid, post, identity);
    RejectAppend(pre, [c], identity);
    assert Reject([c], identity) == [];
    assert Reject(mid, identity) == pre;
  }

  /** A deck without matching cards is left as it is by rejecting. */
  lemma RejectNoMatch<T>(deck: seq<T>, identity: T -> bool)
    requires |Matching(deck, identity)| == 0
    ensures Reject(deck, identity) == deck
  {
    forall k | 0 <= k < |deck|
      ensures !identity(deck[k])
    {
      assert deck[k] in deck;
    }
  }
}
