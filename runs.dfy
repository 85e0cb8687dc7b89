/** The sequence rules of game.py: `is_full_sequence` and `is_same_suit_sequence`,
    each proved equal to a declarative "the values are consecutive integers" reading. */
module Runs {
  import opened Lists

  predicate Sorted(s: seq<int>)
  {
    forall i, j :: 0 <= i < j < |s| ==> s[i] <= s[j]
  }

  /** Every item of `r`, which holds the items of `s` and `x`, is at least `lo`. */
  lemma AllAtLeast(lo: int, r: seq<int>, s: seq<int>, x: int)
    requires multiset(r) == multiset(s) + multiset{x}
    requires lo <= x && forall k :: 0 <= k < |s| ==> lo <= s[k]
    ensures forall k :: 0 <= k < |r| ==> lo <= r[k]
  {
    forall k | 0 <= k < |r|
      ensures lo <= r[k]
    {
      assert r[k] in multiset(r);
      if r[k] != x {
        assert r[k] in multiset(s);
        var j :| 0 <= j < |s| && s[j] == r[k];
      }
    }
  }

  lemma SortedCons(a: int, r: seq<int>)
    requires Sorted(r) && forall k :: 0 <= k < |r| ==> a <= r[k]
    ensures Sorted([a] + r)
  {
    var t := [a] + r;
    forall i, j | 0 <= i < j < |t|
      ensures t[i] <= t[j]
    {
      assert t[j] == r[j - 1];
      if i > 0 {
        assert t[i] == r[i - 1];
      }
    }
  }

  function Insert(x: int, s: seq<int>): (r: seq<int>)
    requires Sorted(s)
    ensures Sorted(r) && multiset(r) == multiset(s) + multiset{x}
  {
    if s == [] then [x]
    else if x <= s[0] then [x] + s
    else
      var r' := Insert(x, s[1..]);
      assert s == [s[0]] + s[1..];
      AllAtLeast(s[0], r', s[1..], x);
      SortedCons(s[0], r');
      [s[0]] + r'
  }

  /** Python's list.sort() on integers: an ascending permutation. */
  function Sort(s: seq<int>): (r: seq<int>)
    ensures Sorted(r) && multiset(r) == multiset(s)
  {
    if s == [] then []
    else
      assert s == [s[0]] + s[1..];
      Insert(s[0], Sort(s[1..]))
  }

  /** The check loop of both rules: each value exceeds the one before by exactly 1. */
  predicate Consecutive(s: seq<int>)
  {
    forall i :: 0 <= i < |s| - 1 ==> s[i] + 1 == s[i + 1]
  }

  /** lo, lo+1, ..., lo+n-1 */
  function Interval(lo: int, n: nat): seq<int>
  {
    seq(n, i => lo + i)
  }

  /** The values are |vs| consecutive integers, in some order. */
  ghost predicate FormsRun(vs: seq<int>)
  {
    exists lo :: multiset(vs) == multiset(Interval(lo, |vs|))
  }

  lemma HeadIsLeast(a: seq<int>, x: int)
    requires Sorted(a) && x in multiset(a)
    ensures a[0] <= x
  {
    var i :| 0 <= i < |a| && a[i] == x;
  }

  lemma DropHead(a: seq<int>)
    requires a != [] && Sorted(a)
    ensures multiset(a[1..]) == multiset(a) - multiset{a[0]}
    ensures Sorted(a[1..])
    ensures a == [a[0]] + a[1..]
  {
    assert a == [a[0]] + a[1..];
  }

  /** Two ascending sequences with the same items are equal. */
  lemma {:induction false} SortedUnique(a: seq<int>, b: seq<int>)
    requires Sorted(a) && Sorted(b) && multiset(a) == multiset(b)
    ensures a == b
    decreases |a|
  {
    assert |a| == |multiset(a)| && |b| == |multiset(b)|;
    if a != [] {
      HeadIsLeast(a, b[0]);
      HeadIsLeast(b, a[0]);
      DropHead(a);
      DropHead(b);
      assert a[0] == b[0];
      assert multiset(a[1..]) == multiset(b[1..]);
      assert Sorted(a[1..]) && Sorted(b[1..]);
      SortedUnique(a[1..], b[1..]);
    }
  }

  lemma {:induction false} ConsecutiveAt(t: seq<int>, i: int)
    requires Consecutive(t) && 0 <= i < |t|
    ensures t[i] == t[0] + i
  {
    if i > 0 {
      ConsecutiveAt(t, i - 1);
    }
  }

  /** A non-empty consecutive sequence is the interval starting at its head. */
  lemma ConsecutiveIsInterval(t: seq<int>)
    requires t != [] && Consecutive(t)
    ensures t == Interval(t[0], |t|)
  {
    forall i | 0 <= i < |t|
      ensures t[i] == t[0] + i
    {
      ConsecutiveAt(t, i);
    }
  }

  lemma IntervalSortedConsecutive(lo: int, n: nat)
    ensures Sorted(Interval(lo, n)) && Consecutive(Interval(lo, n))
  {
  }

  lemma RunIfConsecutive(vs: seq<int>)
    requires Consecutive(Sort(vs))
    ensures FormsRun(vs)
  {
    var t := Sort(vs);
    assert |t| == |vs| by {
      assert |multiset(t)| == |multiset(vs)|;
    }
    if t == [] {
      assert multiset(vs) == multiset(Interval(0, |vs|));
    } else {
      ConsecutiveIsInterval(t);
      assert multiset(vs) == multiset(Interval(t[0], |vs|));
    }
  }

  lemma ConsecutiveIfRun(vs: seq<int>)
    requires FormsRun(vs)
    ensures Consecutive(Sort(vs))
  {
    var lo :| multiset(vs) == multiset(Interval(lo, |vs|));
    IntervalSortedConsecutive(lo, |vs|);
    SortedUnique(Sort(vs), Interval(lo, |vs|));
  }

  /** Sort-and-compare accepts exactly the values that form a run. */
  lemma RunIff(vs: seq<int>)
    ensures Consecutive(Sort(vs)) <==> FormsRun(vs)
  {
    if Consecutive(Sort(vs)) {
      RunIfConsecutive(vs);
    }
    if FormsRun(vs) {
      ConsecutiveIfRun(vs);
    }
  }

  lemma {:induction false} IntervalCount(lo: int, n: nat, x: int)
    ensures multiset(Interval(lo, n))[x] <= 1
  {
    if n > 0 {
      IntervalCount(lo, n - 1, x);
      assert Interval(lo, n) == Interval(lo, n - 1) + [lo + n - 1];
      assert lo + n - 1 !in Interval(lo, n - 1);
    }
  }

  /** Two equal values never sort into a run. */
  lemma DuplicateBreaksRun(vs: seq<int>, i: int, j: int)
    requires 0 <= i < j < |vs| && vs[i] == vs[j]
    ensures !Consecutive(Sort(vs))
  {
    var x := vs[i];
    assert vs == vs[..j] + vs[j..];
    assert vs[..j][i] == x && vs[j..][0] == x;
    assert multiset(vs)[x] >= 2;
    forall lo
      ensures multiset(vs) != multiset(Interval(lo, |vs|))
    {
      IntervalCount(lo, |vs|, x);
    }
    RunIff(vs);
  }

  /** The values at the selected positions, in selection order (game.py:203). */
  function ValuesAt(sel: seq<int>, value: seq<int>): seq<int>
    requires IndicesIn(sel, value)
  {
    seq(|sel|, k requires 0 <= k < |sel| => value[sel[k]])
  }

  /** The full-run rule (game.py:195-209): the selection covers the whole hand and its
      values, sorted, step up by one; the suits are not consulted. */
  function IsFullSequence(sel: seq<int>, value: seq<int>, handLen: int): bool
    requires IndicesIn(sel, value)
  {
    |sel| == handLen && Consecutive(Sort(ValuesAt(sel, value)))
  }

  lemma FullSequenceIff(sel: seq<int>, value: seq<int>, handLen: int)
    requires IndicesIn(sel, value)
    ensures IsFullSequence(sel, value, handLen) <==> |sel| == handLen && FormsRun(ValuesAt(sel, value))
  {
    RunIff(ValuesAt(sel, value));
  }

  lemma FullSequenceRejectsDuplicates(sel: seq<int>, value: seq<int>, handLen: int, a: int, b: int)
    requires IndicesIn(sel, value)
    requires 0 <= a < b < |sel| && value[sel[a]] == value[sel[b]]
    ensures !IsFullSequence(sel, value, handLen)
  {
    DuplicateBreaksRun(ValuesAt(sel, value), a, b);
  }

  /** The list `suit_groups[s]`: values of the selected cards of suit `s`, in selection order. */
  function SuitGroup(sel: seq<int>, value: seq<int>, suit: seq<int>, s: int): seq<int>
    requires IndicesIn(sel, value) && IndicesIn(sel, suit)
  {
    if sel == [] then []
    else
      var i := sel[|sel| - 1];
      SuitGroup(sel[..|sel| - 1], value, suit, s) + (if suit[i] == s then [value[i]] else [])
  }

  /** The keys of `suit_groups`, in the order `setdefault` inserted them. */
  function SuitKeys(sel: seq<int>, suit: seq<int>): seq<int>
    requires IndicesIn(sel, suit)
  {
    if sel == [] then []
    else
      var keys := SuitKeys(sel[..|sel| - 1], suit);
      var s := suit[sel[|sel| - 1]];
      if s in keys then keys else keys + [s]
  }

  /** The check applied to one group: 3 or more values that sort into a run. */
  predicate GroupIsRun(sel: seq<int>, value: seq<int>, suit: seq<int>, s: int)
    requires IndicesIn(sel, value) && IndicesIn(sel, suit)
  {
    |SuitGroup(sel, value, suit, s)| >= 3 && Consecutive(Sort(SuitGroup(sel, value, suit, s)))
  }

  /** The loop over `suit_groups.items()`: some group of 3 or more sorts into a run. */
  function SomeGroupIsRun(keys: seq<int>, sel: seq<int>, value: seq<int>, suit: seq<int>): bool
    requires IndicesIn(sel, value) && IndicesIn(sel, suit)
  {
    if keys == [] then false
    else if GroupIsRun(sel, value, suit, keys[0]) then true
    else SomeGroupIsRun(keys[1..], sel, value, suit)
  }

  /** The suited-run rule (game.py:211-237): at least 3 cards selected, and some suit
      group, visited in insertion order, holds 3 or more values that sort into a run. */
  function IsSameSuitSequence(sel: seq<int>, value: seq<int>, suit: seq<int>): bool
    requires IndicesIn(sel, value) && IndicesIn(sel, suit)
  {
    |sel| >= 3 && SomeGroupIsRun(SuitKeys(sel, suit), sel, value, suit)
  }

  /** The selected cards of suit `s` are at least 3 and their values form a run. */
  ghost predicate SuitedRun(sel: seq<int>, value: seq<int>, suit: seq<int>, s: int)
    requires IndicesIn(sel, value) && IndicesIn(sel, suit)
  {
    |SuitGroup(sel, value, suit, s)| >= 3 && FormsRun(SuitGroup(sel, value, suit, s))
  }

  /** Every suit that has a selected card is a key of the grouping dict. */
  lemma {:induction false} GroupedSuitIsKey(sel: seq<int>, value: seq<int>, suit: seq<int>, s: int)
    requires IndicesIn(sel, value) && IndicesIn(sel, suit)
    requires |SuitGroup(sel, value, suit, s)| > 0
    ensures s in SuitKeys(sel, suit)
  {
    var init := sel[..|sel| - 1];
    if suit[sel[|sel| - 1]] != s {
      GroupedSuitIsKey(init, value, suit, s);
    }
  }

  lemma {:induction false} SomeGroupIsRunIff(keys: seq<int>, sel: seq<int>, value: seq<int>, suit: seq<int>)
    requires IndicesIn(sel, value) && IndicesIn(sel, suit)
    ensures SomeGroupIsRun(keys, sel, value, suit) <==>
      exists s :: s in keys && GroupIsRun(sel, value, suit, s)
  {
    if keys != [] {
      var rest := keys[1..];
      SomeGroupIsRunIff(rest, sel, value, suit);
      if GroupIsRun(sel, value, suit, keys[0]) {
        assert keys[0] in keys;
      } else if SomeGroupIsRun(rest, sel, value, suit) {
        var s :| s in rest && GroupIsRun(sel, value, suit, s);
        assert s in keys;
      }
    }
  }

  /** The grouping loop accepts exactly a selection of 3 or more in which some suit
      holds at least 3 selected cards whose values, all of them, form one run. */
  lemma SameSuitIff(sel: seq<int>, value: seq<int>, suit: seq<int>)
    requires IndicesIn(sel, value) && IndicesIn(sel, suit)
    ensures IsSameSuitSequence(sel, value, suit) <==>
      |sel| >= 3 && exists s :: SuitedRun(sel, value, suit, s)
  {
    var keys := SuitKeys(sel, suit);
    SomeGroupIsRunIff(keys, sel, value, suit);
    if IsSameSuitSequence(sel, value, suit) {
      var s :| s in keys && GroupIsRun(sel, value, suit, s);
      RunIff(SuitGroup(sel, value, suit, s));
      assert SuitedRun(sel, value, suit, s);
    }
    if |sel| >= 3 && exists s :: SuitedRun(sel, value, suit, s) {
      var s :| SuitedRun(sel, value, suit, s);
      GroupedSuitIsKey(sel, value, suit, s);
      RunIff(SuitGroup(sel, value, suit, s));
      assert GroupIsRun(sel, value, suit, s);
    }
  }
}
