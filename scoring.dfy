/** The end-of-round rule of `check_declare` (game.py:332-345), without the screen. */
module Scoring {
  import opened Cards

  datatype Outcome = PlayerWins | BotWins | Tie

  datatype Score = Score(userTotal: int, botTotal: int, outcome: Outcome)

  /** Totals are the sums of each hand's values; the lower total wins. */
  function FinalScore(value: seq<int>, botValue: seq<int>): (r: Score)
    ensures r.userTotal == Sum(value) && r.botTotal == Sum(botValue)
    ensures r.outcome == PlayerWins <==> Sum(value) < Sum(botValue)
    ensures r.outcome == BotWins <==> Sum(botValue) < Sum(value)
    ensures r.outcome == Tie <==> Sum(value) == Sum(botValue)
  {
    var userTotal := Sum(value);
    var botTotal := Sum(botValue);
    var outcome :=
      if userTotal < botTotal then PlayerWins
      else if userTotal > botTotal then BotWins
      else Tie;
    Score(userTotal, botTotal, outcome)
  }

  function Mirror(o: Outcome): Outcome
  {
    match o
    case PlayerWins => BotWins
    case BotWins => PlayerWins
    case Tie => Tie
  }

  /** The rule favours neither side: swapping the hands swaps the winner. */
  lemma ScoreSymmetric(value: seq<int>, botValue: seq<int>)
    ensures FinalScore(botValue, value).outcome == Mirror(FinalScore(value, botValue).outcome)
  {
  }

  /** The outcome depends only on which cards each side holds, not on their order. */
  lemma ScoreIgnoresOrder(value: seq<int>, botValue: seq<int>, value': seq<int>, botValue': seq<int>)
    requires multiset(value) == multiset(value') && multiset(botValue) == multiset(botValue')
    ensures FinalScore(value', botValue') == FinalScore(value, botValue)
  {
    SumPermutation(value, value');
    SumPermutation(botValue, botValue');
  }

  /** Player values [2, 3, 5] against bot values [4, 4, 4]: 10 beats 12. */
  lemma PlayerWinsExample()
    ensures FinalScore([2, 3, 5], [4, 4, 4]) == Score(10, 12, PlayerWins)
  {
  }
}
