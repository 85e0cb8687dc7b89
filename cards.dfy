/** Card ids of the declare game, their value/suit encoding, hand totals and the
    game's constants (game.py:16-23, 90-91, 145-146, 277). */
module Cards {
  import opened Lists

  /** Number of distinct card ids: `random.randrange(52)`. */
  const DECK_SIZE := 52
  /** Size of a freshly dealt hand, and the most cards the player may select. */
  const NUM_CARDS := 5
  /** The bot picks up the player's discard when its value is below this. */
  const PICKUP_BELOW := 7
  /** The bot declares when its hand total is at most this. */
  const DECLARE_AT_MOST := 7

  /** A card id; value `c % 13 + 1`, suit `c // 13 + 1`. */
  type CardId = c: int | 0 <= c < 52

  datatype Option<T> = None | Some(value: T)

  function ValueOf(c: CardId): (v: int)
    ensures 1 <= v <= 13
  {
    c % 13 + 1
  }

  function SuitOf(c: CardId): (s: int)
    ensures 1 <= s <= 4
  {
    c / 13 + 1
  }

  /** The id of the card with value `v` and suit `s`: the inverse of the encoding. */
  function CardOf(v: int, s: int): (c: CardId)
    requires 1 <= v <= 13 && 1 <= s <= 4
    ensures ValueOf(c) == v && SuitOf(c) == s
  {
    (s - 1) * 13 + (v - 1)
  }

  /** A card is determined by its value and suit. */
  lemma EncodingRoundTrip(c: CardId)
    ensures CardOf(ValueOf(c), SuitOf(c)) == c
  {
  }

  /** The value list built from a hand of ids (game.py:145): the value of each id, in
      hand order; with the id's suit it gives the id back. */
  function Values(h: seq<CardId>): (r: seq<int>)
    ensures |r| == |h|
    ensures forall i :: 0 <= i < |h| ==> 1 <= r[i] <= 13 && CardOf(r[i], SuitOf(h[i])) == h[i]
  {
    seq(|h|, i requires 0 <= i < |h| => ValueOf(h[i]))
  }

  /** The suit list built from a hand of ids (game.py:146): the suit of each id, in
      hand order; with the id's value it gives the id back. */
  function Suits(h: seq<CardId>): (r: seq<int>)
    ensures |r| == |h|
    ensures forall i :: 0 <= i < |h| ==> 1 <= r[i] <= 4 && CardOf(ValueOf(h[i]), r[i]) == h[i]
  {
    seq(|h|, i requires 0 <= i < |h| => SuitOf(h[i]))
  }

  /** Position i of the parallel id, value and suit lists describes one card. */
  ghost predicate SameCardAt(h: seq<CardId>, v: seq<int>, s: seq<int>, i: int)
    requires 0 <= i < |h| && |v| == |h| && |s| == |h|
  {
    v[i] == ValueOf(h[i]) && s[i] == SuitOf(h[i])
  }

  /** The parallel value and suit lists agree with the ids, position by position. */
  ghost predicate LockStep(h: seq<CardId>, v: seq<int>, s: seq<int>)
  {
    |h| == |v| == |s| &&
    forall i :: 0 <= i < |h| ==> SameCardAt(h, v, s, i)
  }

  /** `init_hand` builds the value and suit lists from the ids. */
  lemma LockStepOfIds(h: seq<CardId>)
    ensures LockStep(h, Values(h), Suits(h))
  {
    forall i | 0 <= i < |h|
      ensures SameCardAt(h, Values(h), Suits(h), i)
    {
    }
  }

  /** Appending a card to the three lists, as `append` does, keeps them in lock-step. */
  lemma LockStepAppend(h: seq<CardId>, v: seq<int>, s: seq<int>, c: CardId)
    requires LockStep(h, v, s)
    ensures LockStep(h + [c], v + [ValueOf(c)], s + [SuitOf(c)])
  {
    forall i | 0 <= i < |h| + 1
      ensures SameCardAt(h + [c], v + [ValueOf(c)], s + [SuitOf(c)], i)
    {
      if i < |h| {
        assert SameCardAt(h, v, s, i);
      }
    }
  }

  /** Popping the same position from the three lists, as `pop` does, keeps them in lock-step. */
  lemma LockStepPop(h: seq<CardId>, v: seq<int>, s: seq<int>, p: int)
    requires LockStep(h, v, s) && 0 <= p < |h|
    ensures LockStep(h[..p] + h[p + 1..], v[..p] + v[p + 1..], s[..p] + s[p + 1..])
  {
    var h', v', s' := h[..p] + h[p + 1..], v[..p] + v[p + 1..], s[..p] + s[p + 1..];
    forall i | 0 <= i < |h'|
      ensures SameCardAt(h', v', s', i)
    {
      if i < p {
        assert SameCardAt(h, v, s, i);
      } else {
        assert SameCardAt(h, v, s, i + 1);
      }
    }
  }

  /** Python's sum() of a list. */
  function Sum(s: seq<int>): int
  {
    if s == [] then 0 else s[0] + Sum(s[1..])
  }

  lemma {:induction false} SumConcat(a: seq<int>, b: seq<int>)
    ensures Sum(a + b) == Sum(a) + Sum(b)
  {
    if a != [] {
      assert (a + b)[1..] == a[1..] + b;
      SumConcat(a[1..], b);
    } else {
      assert a + b == b;
    }
  }

  /** Taking out one item lowers the total by exactly that item. */
  lemma SumRemove(b: seq<int>, p: int)
    requires 0 <= p < |b|
    ensures Sum(b) == b[p] + Sum(b[..p] + b[p + 1..])
  {
    assert b[..p] + b[p..] == b;
    SumConcat(b[..p], b[p..]);
    assert b[p..][1..] == b[p + 1..];
    SumConcat(b[..p], b[p + 1..]);
  }

  lemma MultisetRemove(b: seq<int>, p: int)
    requires 0 <= p < |b|
    ensures multiset(b[..p] + b[p + 1..]) == multiset(b) - multiset{b[p]}
  {
    assert b == b[..p] + [b[p]] + b[p + 1..];
  }

  /** Taking the head of `a` and a matching item out of `b` leaves the same multisets. */
  lemma RemoveMatching(a: seq<int>, b: seq<int>, p: int)
    requires multiset(a) == multiset(b) && a != [] && 0 <= p < |b| && b[p] == a[0]
    ensures multiset(a[1..]) == multiset(b[..p] + b[p + 1..])
  {
    MultisetRemove(b, p);
    MultisetTail(a);
    var x := a[0];
    assert multiset(a[1..]) == multiset(a) - multiset{x};
    assert multiset(b[..p] + b[p + 1..]) == multiset(b) - multiset{x};
  }

  lemma MultisetTail(a: seq<int>)
    requires a != []
    ensures multiset(a[1..]) == multiset(a) - multiset{a[0]}
  {
    assert a == [a[0]] + a[1..];
  }

  /** The total of a hand does not depend on the order of its cards. */
  lemma {:induction false} SumPermutation(a: seq<int>, b: seq<int>)
    requires multiset(a) == multiset(b)
    ensures Sum(a) == Sum(b)
  {
    if a != [] {
      assert a[0] in multiset(b);
      var p :| 0 <= p < |b| && b[p] == a[0];
      RemoveMatching(a, b, p);
      SumPermutation(a[1..], b[..p] + b[p + 1..]);
      SumRemove(b, p);
    }
  }

  /** Every card is worth 1 to 13, so a hand of n cards totals between n and 13n. */
  lemma {:induction false} SumBounds(h: seq<CardId>, v: seq<int>, s: seq<int>)
    requires LockStep(h, v, s)
    ensures |h| <= Sum(v) <= 13 * |h|
  {
    if h != [] {
      assert SameCardAt(h, v, s, 0);
      forall i | 0 <= i < |h| - 1
        ensures SameCardAt(h[1..], v[1..], s[1..], i)
      {
        assert SameCardAt(h, v, s, i + 1);
      }
      SumBounds(h[1..], v[1..], s[1..]);
    }
  }

  /** The n ids below n. */
  function IdsBelow(n: nat): (r: set<CardId>)
    requires n <= DECK_SIZE
    ensures |r| == n
    ensures forall c: CardId :: c in r <==> c < n
  {
    if n == 0 then {} else IdsBelow(n - 1) + {n - 1}
  }

  /** No more than DECK_SIZE ids can be in use. */
  lemma UsedBound(used: set<CardId>)
    ensures |used| <= DECK_SIZE
  {
    SubsetCard(used, IdsBelow(DECK_SIZE));
  }

  lemma {:induction false} Missing<T>(a: set<T>, b: set<T>)
    requires |b| < |a|
    ensures exists x :: x in a && x !in b
  {
    var x :| x in a;
    if x in b {
      Missing(a - {x}, b - {x});
    }
  }

  /** While fewer than 52 ids are in use, `draw_unique_card`'s retry loop has an id to find. */
  lemma FreeIdExists(used: set<CardId>)
    requires |used| < DECK_SIZE
    ensures exists c: CardId :: c !in used
  {
    Missing(IdsBelow(DECK_SIZE), used);
  }
}
