/** UnoJudger.judge_winner (rlcard/games/uno/judger.py): the player with the
    larger of the first two payoffs wins; equal payoffs give no winner. */
module UnoJudger {
  import opened Wrappers

  /** The winners as a list of player ids, None on a tie. Python indexes
      payoffs[0] and payoffs[1], so at least two entries are needed. */
  function JudgeWinner(payoffs: seq<int>): (w: Option<seq<nat>>)
    requires |payoffs| >= 2
    ensures w == Some([0]) <==> payoffs[0] > payoffs[1]
    ensures w == Some([1]) <==> payoffs[0] < payoffs[1]
    ensures w == None <==> payoffs[0] == payoffs[1]
  {
    if payoffs[0] > payoffs[1] then Some([0])
    else if payoffs[0] < payoffs[1] then Some([1])
    else None
  }

  /** Swapping the two payoffs swaps the winner; entries past index 1 play
      no part. */
  lemma JudgeWinnerSymmetric(a: int, b: int, rest: seq<int>, rest': seq<int>)
    ensures JudgeWinner([a, b] + rest) == JudgeWinner([a, b] + rest')
    ensures JudgeWinner([a, b] + rest) == Some([0]) <==> JudgeWinner([b, a] + rest) == Some([1])
    ensures JudgeWinner([a, b] + rest) == None <==> JudgeWinner([b, a] + rest) == None
  {
    assert ([a, b] + rest)[0] == ([a, b] + rest')[0] == ([b, a] + rest)[1] == a;
    assert ([a, b] + rest)[1] == ([a, b] + rest')[1] == ([b, a] + rest)[0] == b;
  }
}
