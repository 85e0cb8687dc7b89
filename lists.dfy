/** Operations the game performs on its Python lists (pop at one or several positions,
    index of, max), with the sequence facts the proofs need. `Erase` takes every
    occurrence out; it tracks the positions still to pop in `drop_cards`. */
module Lists {

  /** The set of items of a sequence. */
  function Elements<T>(s: seq<T>): set<T>
  {
    set x | x in s
  }

  /** No item occurs twice. */
  predicate Distinct<T(==)>(s: seq<T>)
  {
    forall i, j :: 0 <= i < j < |s| ==> s[i] != s[j]
  }

  /** Every item of `ix` is a valid position of `xs`. */
  predicate IndicesIn<T>(ix: seq<int>, xs: seq<T>)
  {
    forall k :: 0 <= k < |ix| ==> 0 <= ix[k] < |xs|
  }

  /** The items found at the valid positions named in `positions`. */
  function ItemsAt<T>(s: seq<T>, positions: set<int>): set<T>
  {
    set p | p in positions && 0 <= p < |s| :: s[p]
  }

  lemma {:induction false} DistinctCard<T>(s: seq<T>)
    requires Distinct(s)
    ensures |Elements(s)| == |s|
  {
    if s != [] {
      var t := s[..|s| - 1];
      DistinctCard(t);
      assert s == t + [s[|s| - 1]];
      assert Elements(s) == Elements(t) + {s[|s| - 1]};
      assert s[|s| - 1] !in Elements(t);
    }
  }

  /** Two distinct sequences with no item in common concatenate to a distinct one. */
  lemma DisjointConcat<T>(a: seq<T>, b: seq<T>)
    requires Distinct(a) && Distinct(b)
    requires forall k :: 0 <= k < |b| ==> b[k] !in Elements(a)
    ensures Distinct(a + b)
  {
    var all := a + b;
    forall i, j | 0 <= i < j < |all|
      ensures all[i] != all[j]
    {
      if j < |a| {
        assert all[i] == a[i] && all[j] == a[j];
      } else if i >= |a| {
        assert all[i] == b[i - |a|] && all[j] == b[j - |a|];
      } else {
        assert all[i] in Elements(a);
        assert all[j] == b[j - |a|];
      }
    }
  }

  lemma {:induction false} SubsetCard<T>(a: set<T>, b: set<T>)
    requires a <= b
    ensures |a| <= |b|
  {
    if a != {} {
      var x :| x in a;
      SubsetCard(a - {x}, b - {x});
    }
  }

  /** `s` with the positions in `gone` taken out and every other item kept, in its
      original order: what popping those positions one by one leaves. */
  function Without<T>(s: seq<T>, gone: set<int>): (r: seq<T>)
    ensures |r| <= |s|
  {
    if s == [] then []
    else Without(s[..|s| - 1], gone) + (if |s| - 1 in gone then [] else [s[|s| - 1]])
  }

  /** Removing positions that do not exist changes nothing. */
  lemma {:induction false} WithoutNothing<T>(s: seq<T>, gone: set<int>)
    requires forall d :: d in gone ==> d >= |s|
    ensures Without(s, gone) == s
  {
    if s != [] {
      WithoutNothing(s[..|s| - 1], gone);
      assert s[..|s| - 1] + [s[|s| - 1]] == s;
    }
  }

  /** One step of the definition of `Without`, as an equation. */
  lemma WithoutLast<T>(s: seq<T>, gone: set<int>)
    requires s != []
    ensures Without(s, gone) ==
      Without(s[..|s| - 1], gone) + (if |s| - 1 in gone then [] else [s[|s| - 1]])
  {
  }

  /** Cutting `w + tail` around a position `p` of `w`. */
  lemma SplitAt<T>(w: seq<T>, tail: seq<T>, p: int)
    requires 0 <= p < |w|
    ensures (w + tail)[p] == w[p]
    ensures (w + tail)[..p] + (w + tail)[p + 1..] == w[..p] + w[p + 1..] + tail
  {
    assert (w + tail)[..p] == w[..p];
    assert (w + tail)[p + 1..] == w[p + 1..] + tail;
  }

  /** The base case of `WithoutPop`: `p` is the last position and nothing after it goes. */
  lemma WithoutPopLast<T>(s: seq<T>, gone: set<int>)
    requires s != [] && forall d :: d in gone ==> d >= |s|
    ensures Without(s, gone) == s
    ensures Without(s, gone + {|s| - 1}) == s[..|s| - 1]
  {
    var n := |s|;
    WithoutNothing(s, gone);
    WithoutLast(s, gone + {n - 1});
    WithoutNothing(s[..n - 1], gone + {n - 1});
  }

  /** Once every position above `p` that is to go has gone, position `p` still holds
      its original item, and popping it removes exactly position `p` from the result. */
  lemma {:induction false} WithoutPop<T>(s: seq<T>, gone: set<int>, p: int)
    requires 0 <= p < |s| && p !in gone
    requires forall d :: d in gone ==> d > p
    ensures p < |Without(s, gone)| && Without(s, gone)[p] == s[p]
    ensures Without(s, gone + {p}) == Without(s, gone)[..p] + Without(s, gone)[p + 1..]
  {
    var n := |s|;
    if p == n - 1 {
      WithoutPopLast(s, gone);
      assert s[..p] + s[p + 1..] == s[..n - 1];
    } else {
      var init := s[..n - 1];
      var more := gone + {p};
      WithoutPop(init, gone, p);
      var w := Without(init, gone);
      var tail := if n - 1 in gone then [] else [s[n - 1]];
      assert (n - 1 in more) == (n - 1 in gone);
      WithoutLast(s, gone);
      WithoutLast(s, more);
      assert Without(s, gone) == w + tail;
      assert Without(s, more) == w[..p] + w[p + 1..] + tail;
      SplitAt(w, tail, p);
      assert init[p] == s[p];
    }
  }

  /** Every item of `s` either survives the removal or sits at a removed position. */
  lemma {:induction false} WithoutCovers<T>(s: seq<T>, gone: set<int>)
    ensures Elements(s) <= Elements(Without(s, gone)) + ItemsAt(s, gone)
  {
    if s != [] {
      var n := |s|;
      var init := s[..n - 1];
      WithoutCovers(init, gone);
      WithoutLast(s, gone);
      var w := Without(init, gone);
      var r := Without(s, gone);
      assert r[..|w|] == w;
      forall x | x in Elements(s)
        ensures x in Elements(r) || x in ItemsAt(s, gone)
      {
        var k :| 0 <= k < n && s[k] == x;
        if k == n - 1 {
          if n - 1 !in gone {
            assert r[|w|] == x;
          } else {
            assert x in ItemsAt(s, gone);
          }
        } else {
          assert init[k] == x && x in Elements(init);
          if x in Elements(w) {
            var j :| 0 <= j < |w| && w[j] == x;
            assert r[j] == x;
          } else {
            var q :| q in gone && 0 <= q < |init| && init[q] == x;
            assert s[q] == x;
          }
        }
      }
    }
  }

  /** Popping position `p` loses no item other than the one at `p`. */
  lemma PopRetains<T>(s: seq<T>, p: int)
    requires 0 <= p < |s|
    ensures Elements(s) <= Elements(s[..p] + s[p + 1..]) + {s[p]}
  {
    forall x | x in Elements(s)
      ensures x in Elements(s[..p] + s[p + 1..]) + {s[p]}
    {
      var k :| 0 <= k < |s| && s[k] == x;
      if k < p {
        assert (s[..p] + s[p + 1..])[k] == x;
      } else if k > p {
        assert (s[..p] + s[p + 1..])[k - 1] == x;
      }
    }
  }

  /** Python's max() over a non-empty list. */
  function Largest(s: seq<int>): (m: int)
    requires |s| > 0
    ensures m in s && forall x :: x in s ==> x <= m
  {
    if |s| == 1 then s[0]
    else
      var r := Largest(s[1..]);
      assert forall x :: x in s[1..] ==> x <= r;
      assert forall x :: x in s ==> x == s[0] || x in s[1..];
      if s[0] >= r then s[0] else r
  }

  /** Python's list.index(x): the first position holding `x`. */
  function IndexOf<T(==)>(s: seq<T>, x: T): (p: nat)
    requires x in s
    ensures p < |s| && s[p] == x
    ensures forall q :: 0 <= q < p ==> s[q] != x
  {
    if s[0] == x then 0
    else
      assert x in s[1..];
      1 + IndexOf(s[1..], x)
  }

  /** `s` with every occurrence of `x` taken out. */
  function Erase(s: seq<int>, x: int): (r: seq<int>)
    ensures Elements(r) == Elements(s) - {x}
    ensures x in s ==> |r| < |s|
    ensures |r| <= |s|
  {
    if s == [] then []
    else
      var r := Erase(s[1..], x);
      assert Elements(s) == {s[0]} + Elements(s[1..]);
      assert x in s ==> x == s[0] || x in s[1..];
      var head := if s[0] == x then [] else [s[0]];
      assert Elements(head + r) == Elements(head) + Elements(r);
      head + r
  }
}
