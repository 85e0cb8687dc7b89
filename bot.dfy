/** The searches of `bot_turn` (game.py:280-325): the first equal-value pair and the
    first position of the highest value. The turn itself is `RoundState.BotTurn`. */
module BotPolicy {
  import opened Lists

  /** The action tags `bot_turn` returns; a pair drop is tagged "dropped_card" too. */
  datatype BotAction = PickedUpPlayerCard | Declare | DroppedCard

  ghost predicate HasPair(v: seq<int>)
  {
    exists i, j :: 0 <= i < j < |v| && v[i] == v[j]
  }

  /** (i, j) is the first pair (i < j) with equal values in the scan order of the
      nested loops: increasing i, then increasing j. */
  ghost predicate IsFirstPair(v: seq<int>, i: int, j: int)
  {
    0 <= i < j < |v| && v[i] == v[j] &&
    (forall a, b :: 0 <= a < i && a < b < |v| ==> v[a] != v[b]) &&
    (forall b :: i < b < j ==> v[i] != v[b])
  }

  /** The nested loops of game.py:287-307. */
  method FindFirstPair(v: seq<int>) returns (found: bool, i: int, j: int)
    ensures found <==> HasPair(v)
    ensures found ==> IsFirstPair(v, i, j)
  {
    found, i, j := false, 0, 0;
    var a := 0;
    while a < |v| && !found
      invariant 0 <= a <= |v|
      invariant !found ==> forall x, y :: 0 <= x < a && x < y < |v| ==> v[x] != v[y]
      invariant found ==> IsFirstPair(v, i, j)
      decreases |v| - a
    {
      var b := a + 1;
      while b < |v| && !found
        invariant a + 1 <= b <= |v|
        invariant !found ==> forall y :: a < y < b ==> v[a] != v[y]
        invariant found ==> IsFirstPair(v, i, j)
        decreases |v| - b
      {
        if v[a] == v[b] {
          found, i, j := true, a, b;
        }
        b := b + 1;
      }
      a := a + 1;
    }
  }

  /** The bot's single-card choice (game.py:313): the first position holding the
      highest value, found as the index of the maximum. */
  function FirstMaxIndex(v: seq<int>): (k: nat)
    requires |v| > 0
    ensures k < |v|
    ensures forall j :: 0 <= j < |v| ==> v[j] <= v[k]
    ensures forall j :: 0 <= j < k ==> v[j] < v[k]
  {
    assert forall j :: 0 <= j < |v| ==> v[j] in v;
    IndexOf(v, Largest(v))
  }
}
