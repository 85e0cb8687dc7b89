/** The player's selection list and the drop resolver, both inlined in `main`
    (game.py:403-411 and game.py:427-442). */
module Selection {
  import opened Cards
  import opened Lists
  import opened Runs

  /** What `main` keeps true of `selected` between drops: distinct positions of the
      current hand, at most NUM_CARDS of them. */
  ghost predicate SelectionValid(sel: seq<int>, handLen: int)
  {
    Distinct(sel) && |sel| <= NUM_CARDS && forall k :: 0 <= k < |sel| ==> 0 <= sel[k] < handLen
  }

  /** The select button at cursor index `i`: `selected.remove(i)` when it is selected,
      otherwise `selected.append(i)` while fewer than NUM_CARDS are selected. */
  function Toggled(sel: seq<int>, i: int): (r: seq<int>)
    ensures forall x :: x != i ==> (x in r <==> x in sel)
    ensures Distinct(sel) ==> (i in r <==> i !in sel && |sel| < NUM_CARDS)
    ensures i in sel ==> |r| == |sel| - 1
    ensures i !in sel ==> |r| == if |sel| < NUM_CARDS then |sel| + 1 else |sel|
  {
    if i in sel then
      var p := IndexOf(sel, i);
      assert sel == sel[..p] + [sel[p]] + sel[p + 1..];
      assert forall x :: x in sel[..p] + sel[p + 1..] <==> x in sel[..p] || x in sel[p + 1..];
      sel[..p] + sel[p + 1..]
    else if |sel| < NUM_CARDS then sel + [i]
    else sel
  }

  /** A toggle at a valid cursor keeps the selection valid. */
  lemma ToggleKeepsValid(sel: seq<int>, i: int, handLen: int)
    requires SelectionValid(sel, handLen) && 0 <= i < handLen
    ensures SelectionValid(Toggled(sel, i), handLen)
  {
    var r := Toggled(sel, i);
    if i in sel {
      var p := IndexOf(sel, i);
      assert r == sel[..p] + sel[p + 1..];
      forall a, b | 0 <= a < b < |r|
        ensures r[a] != r[b]
      {
        var a' := if a < p then a else a + 1;
        var b' := if b < p then b else b + 1;
        assert r[a] == sel[a'] && r[b] == sel[b'];
      }
      forall k | 0 <= k < |r|
        ensures 0 <= r[k] < handLen
      {
        assert r[k] == sel[if k < p then k else k + 1];
      }
    }
  }

  /** Toggling the same index twice gives back the same selected positions, but the
      same list only when the index was not selected or was the last one selected:
      `remove` followed by `append` moves it to the end. */
  lemma ToggleTwice(sel: seq<int>, i: int)
    requires Distinct(sel) && |sel| <= NUM_CARDS
    ensures Elements(Toggled(Toggled(sel, i), i)) == Elements(sel)
    ensures |Toggled(Toggled(sel, i), i)| == |sel|
    ensures Toggled(Toggled(sel, i), i) == sel <==> i !in sel || sel[|sel| - 1] == i
  {
    var once := Toggled(sel, i);
    if i in sel {
      var p := IndexOf(sel, i);
      assert once == sel[..p] + sel[p + 1..];
      assert i !in once;
      assert Toggled(once, i) == once + [i];
      if p == |sel| - 1 {
        assert sel == sel[..p] + [i];
      } else {
        assert Toggled(once, i)[p] == sel[p + 1] != sel[p];
      }
    } else if |sel| < NUM_CARDS {
      assert once == sel + [i];
      assert IndexOf(once, i) == |sel|;
      assert once[..|sel|] == sel;
    }
  }

  /** The player's pair: two selected positions with equal values. */
  predicate IsPair(sel: seq<int>, value: seq<int>)
    requires IndicesIn(sel, value)
  {
    |sel| == 2 && value[sel[0]] == value[sel[1]]
  }

  /** The positions the drop button discards (game.py:427-442): the cursor card when
      nothing is selected, the selection when it is one card, a pair, a full run or a
      suited run, and otherwise only the first card selected. */
  function ResolveDrop(sel: seq<int>, cursor: int, value: seq<int>, suit: seq<int>): (r: seq<int>)
    requires |value| == |suit| && IndicesIn(sel, value)
    requires 0 <= cursor < |value|
    ensures |r| >= 1 && IndicesIn(r, value)
    ensures Distinct(sel) ==> Distinct(r)
    ensures sel == [] ==> r == [cursor]
    ensures sel != [] ==> r == sel || r == [sel[0]]
  {
    if |sel| == 0 then [cursor]
    else if |sel| == 1 then sel
    else if |sel| == 2 then
      if IsPair(sel, value) then sel else [sel[0]]
    else if IsFullSequence(sel, value, |value|) || IsSameSuitSequence(sel, value, suit) then sel
    else [sel[0]]
  }

  /** A selection of two or more is discarded whole exactly when it is a pair, a
      whole-hand run, or contains 3 or more cards of one suit whose values form a run;
      otherwise only its first card goes. */
  lemma ResolveDropAcceptsExactly(sel: seq<int>, cursor: int, value: seq<int>, suit: seq<int>)
    requires |value| == |suit| && IndicesIn(sel, value)
    requires 0 <= cursor < |value|
    requires |sel| >= 2
    ensures ResolveDrop(sel, cursor, value, suit) == sel <==>
      IsPair(sel, value) ||
      (|sel| >= 3 && ((|sel| == |value| && FormsRun(ValuesAt(sel, value))) ||
                      exists s :: SuitedRun(sel, value, suit, s)))
    ensures ResolveDrop(sel, cursor, value, suit) != sel ==> ResolveDrop(sel, cursor, value, suit) == [sel[0]]
  {
    if |sel| >= 3 {
      FullSequenceIff(sel, value, |value|);
      SameSuitIff(sel, value, suit);
    }
  }

  /** Two selected cards of values 3 and 9 are no pair: only the first selected goes. */
  lemma UnequalPairExample()
    ensures ResolveDrop([1, 0], 0, [3, 9], [1, 2]) == [1]
  {
  }
}
