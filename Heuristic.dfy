/**
 * The heuristic of bot/tatetiminimax.js: the weight table, evaluateLine,
 * evaluateDoubleThreats and evaluateBoard.
 */
module Heuristic {
  import opened Board
  import opened LineCatalog

  /** The weight table HEURISTIC_VALUES. */
  const Win := 10000
  const ThreeOpen := 500
  const ThreeBlocked := 100
  const TwoOpen := 50
  const Center := 30
  const DoubleThreat := 800
  /** Present in the table but read nowhere in the engine. */
  const BlockWin := 9000

  /** `line.filter(x => x === c).length` */
  function Count(line: seq<Cell>, c: Cell): nat {
    if line == [] then 0 else (if line[0] == c then 1 else 0) + Count(line[1..], c)
  }

  lemma {:induction false} CountTotal(line: seq<Cell>)
    ensures Count(line, Empty) + Count(line, X) + Count(line, O) == |line|
  {
    if line != [] {
      CountTotal(line[1..]);
    }
  }

  /** With two distinct sides, every cell is the bot's, the opponent's or empty. */
  lemma CountSides(line: seq<Cell>, bot: Player, opp: Player)
    requires bot != opp
    ensures Count(line, bot) + Count(line, opp) + Count(line, Empty) == |line|
  {
    CountTotal(line);
  }

  /** evaluateLine: the score of one line for the bot. */
  function EvaluateLine(line: seq<Cell>, bot: Player, opp: Player): int {
    var botCount := Count(line, bot);
    var opponentCount := Count(line, opp);
    var emptyCount := Count(line, Empty);
    if botCount > 0 && opponentCount > 0 then 0
    else
      var mine :=
        if botCount == 3 && emptyCount == 1 then ThreeOpen
        else if botCount == 2 && emptyCount == 2 then TwoOpen
        else if botCount == 3 then ThreeBlocked
        else 0;
      var theirs :=
        if opponentCount == 3 && emptyCount == 1 then ThreeOpen
        else if opponentCount == 2 && emptyCount == 2 then TwoOpen
        else if opponentCount == 3 then ThreeBlocked
        else 0;
      mine - theirs
  }

  /** On a 4-cell line a mixed line scores 0, and otherwise the score is one of
      -500, -50, 0, 50, 500, each arising exactly from its open configuration:
      the THREE_BLOCKED branch can never be taken. */
  lemma EvaluateLineCases(line: seq<Cell>, bot: Player, opp: Player)
    requires |line| == WinLength && bot != opp
    ensures Count(line, bot) > 0 && Count(line, opp) > 0 ==> EvaluateLine(line, bot, opp) == 0
    ensures EvaluateLine(line, bot, opp) in {-ThreeOpen, -TwoOpen, 0, TwoOpen, ThreeOpen}
    ensures EvaluateLine(line, bot, opp) == ThreeOpen <==> Count(line, bot) == 3 && Count(line, Empty) == 1
    ensures EvaluateLine(line, bot, opp) == TwoOpen <==> Count(line, bot) == 2 && Count(line, Empty) == 2
    ensures EvaluateLine(line, bot, opp) == -ThreeOpen <==> Count(line, opp) == 3 && Count(line, Empty) == 1
    ensures EvaluateLine(line, bot, opp) == -TwoOpen <==> Count(line, opp) == 2 && Count(line, Empty) == 2
  {
    CountSides(line, bot, opp);
  }

  /** Scores are zero-sum: swapping the sides negates a line's score. */
  lemma EvaluateLineAntisymmetric(line: seq<Cell>, bot: Player, opp: Player)
    ensures EvaluateLine(line, opp, bot) == -EvaluateLine(line, bot, opp)
  {
  }

  /** A line holding three of the symbol and one empty cell. */
  predicate IsThreat(line: seq<Cell>, sym: Player) {
    Count(line, sym) == 3 && Count(line, Empty) == 1
  }

  /** The number of threat lines among `lines`. */
  function ThreatCount(lines: seq<seq<Cell>>, sym: Player): nat {
    if lines == [] then 0
    else ThreatCount(lines[..|lines| - 1], sym) + (if IsThreat(lines[|lines| - 1], sym) then 1 else 0)
  }

  lemma {:induction false} ThreatCountAppend(a: seq<seq<Cell>>, b: seq<seq<Cell>>, sym: Player)
    ensures ThreatCount(a + b, sym) == ThreatCount(a, sym) + ThreatCount(b, sym)
  {
    if b == [] {
      assert a + b == a;
    } else {
      var ab := a + b;
      assert ab[..|ab| - 1] == a + b[..|b| - 1];
      assert ab[|ab| - 1] == b[|b| - 1];
      ThreatCountAppend(a, b[..|b| - 1], sym);
    }
  }

  lemma {:induction false} ThreatCountBounded(lines: seq<seq<Cell>>, sym: Player)
    ensures ThreatCount(lines, sym) <= |lines|
  {
    if lines != [] {
      ThreatCountBounded(lines[..|lines| - 1], sym);
    }
  }

  lemma ThreatCountSnoc(lines: seq<seq<Cell>>, a: nat, b: nat, sym: Player)
    requires a <= b < |lines|
    ensures ThreatCount(lines[a..b + 1], sym)
         == ThreatCount(lines[a..b], sym) + (if IsThreat(lines[b], sym) then 1 else 0)
  {
    assert lines[a..b + 1][..b - a] == lines[a..b];
  }

  /** Moving the boundary between the visited and the unvisited lines past line i. */
  lemma ThreatCountShift(lines: seq<seq<Cell>>, i: nat, sym: Player)
    requires i < |lines|
    ensures ThreatCount(lines[..i + 1], sym) == ThreatCount(lines[..i], sym) + (if IsThreat(lines[i], sym) then 1 else 0)
    ensures ThreatCount(lines[i..], sym) == (if IsThreat(lines[i], sym) then 1 else 0) + ThreatCount(lines[i + 1..], sym)
  {
    ThreatCountSnoc(lines, 0, i, sym);
    assert lines[0..i] == lines[..i] && lines[0..i + 1] == lines[..i + 1];
    assert lines[i..] == lines[i..i + 1] + lines[i + 1..];
    ThreatCountAppend(lines[i..i + 1], lines[i + 1..], sym);
    assert lines[i..i + 1][..0] == [];
  }

  /** The number of unordered pairs of `k` things, counted one new thing at a time. */
  function Pairs(k: nat): nat {
    if k == 0 then 0 else Pairs(k - 1) + k - 1
  }

  lemma {:induction false} PairsTwice(k: nat)
    ensures 2 * Pairs(k) == k * (k - 1)
  {
    if k > 0 {
      PairsTwice(k - 1);
      assert (k - 1) * (k - 2) + 2 * (k - 1) == k * (k - 1);
    }
  }

  /** The pair count in closed form: k(k-1)/2. */
  lemma PairsClosedForm(k: nat)
    ensures Pairs(k) == k * (k - 1) / 2
  {
    PairsTwice(k);
  }

  lemma {:induction false} PairsMonotone(j: nat, k: nat)
    requires j <= k
    ensures Pairs(j) <= Pairs(k)
  {
    if j < k {
      PairsMonotone(j, k - 1);
    }
  }

  /** evaluateDoubleThreats: collect the lines, then count the pairs of threat lines. */
  method EvaluateDoubleThreats(board: array2<Cell>, sym: Player) returns (threats: int)
    requires HasBoardShape(board)
    ensures threats == Pairs(ThreatCount(Lines(Snap(board)), sym))
  {
    var lines := GetAllLines(board);
    threats := CountThreatPairs(lines, sym);
  }

  /** The outer loop of evaluateDoubleThreats: for every threat line i, count the
      threat lines j > i. The result is the number of unordered pairs of threat
      lines, whether or not the two lines share a cell. */
  method CountThreatPairs(lines: seq<seq<Cell>>, sym: Player) returns (threats: int)
    ensures threats == Pairs(ThreatCount(lines, sym))
  {
    ghost var total := ThreatCount(lines, sym);
    ghost var seen := 0;
    threats := 0;
    var i := 0;
    while i < |lines|
      invariant 0 <= i <= |lines|
      invariant seen == ThreatCount(lines[..i], sym)
      invariant seen + ThreatCount(lines[i..], sym) == total
      invariant threats == Pairs(total) - Pairs(total - seen)
    {
      ThreatCountShift(lines, i, sym);
      var count := Count(lines[i], sym);
      var empty := Count(lines[i], Empty);
      if count == 3 && empty == 1 {
        var later := CountThreatsFrom(lines, i + 1, sym);
        threats := threats + later;
        assert Pairs(total - seen) == Pairs(total - seen - 1) + (total - seen - 1);
        seen := seen + 1;
      }
      i := i + 1;
    }
    assert lines[..i] == lines;
  }

  /** The inner loop of evaluateDoubleThreats: the threat lines from index `from` on. */
  method CountThreatsFrom(lines: seq<seq<Cell>>, from: nat, sym: Player) returns (n: nat)
    requires from <= |lines|
    ensures n == ThreatCount(lines[from..], sym)
  {
    n := 0;
    var j := from;
    while j < |lines|
      invariant from <= j <= |lines|
      invariant n == ThreatCount(lines[from..j], sym)
    {
      ThreatCountSnoc(lines, from, j, sym);
      var count2 := Count(lines[j], sym);
      var empty2 := Count(lines[j], Empty);
      if count2 == 3 && empty2 == 1 {
        n := n + 1;
      }
      j := j + 1;
    }
    assert lines[from..j] == lines[from..];
  }

  /** The sum of evaluateLine over the lines. */
  function LinesScore(lines: seq<seq<Cell>>, bot: Player, opp: Player): int {
    if lines == [] then 0
    else LinesScore(lines[..|lines| - 1], bot, opp) + EvaluateLine(lines[|lines| - 1], bot, opp)
  }

  /** The centre bonus of evaluateBoard. */
  function CenterScore(g: Grid, bot: Player, opp: Player): int
    requires IsGrid(g)
  {
    if g[2][2] == bot then Center else if g[2][2] == opp then -Center else 0
  }

  /** evaluateBoard: the board's score from the bot's side. */
  function BoardScore(g: Grid, bot: Player, opp: Player): int
    requires IsGrid(g)
  {
    var lines := Lines(g);
    LinesScore(lines, bot, opp) + CenterScore(g, bot, opp)
      + Pairs(ThreatCount(lines, bot)) * DoubleThreat
      - Pairs(ThreatCount(lines, opp)) * DoubleThreat
  }

  /** evaluateBoard: sum the lines in a loop, add the centre bonus and the
      double-threat bonus of each side. */
  method EvaluateBoard(board: array2<Cell>, bot: Player, opp: Player) returns (score: int)
    requires HasBoardShape(board)
    ensures score == BoardScore(Snap(board), bot, opp)
  {
    var lines := GetAllLines(board);
    score := SumLines(lines, bot, opp);
    if board[2, 2] == bot {
      score := score + Center;
    } else if board[2, 2] == opp {
      score := score - Center;
    }
    var mine := EvaluateDoubleThreats(board, bot);
    score := score + mine * DoubleThreat;
    var theirs := EvaluateDoubleThreats(board, opp);
    score := score - theirs * DoubleThreat;
  }

  /** The first loop of evaluateBoard: the sum of evaluateLine over the lines. */
  method SumLines(lines: seq<seq<Cell>>, bot: Player, opp: Player) returns (score: int)
    ensures score == LinesScore(lines, bot, opp)
  {
    score := 0;
    var i := 0;
    while i < |lines|
      invariant 0 <= i <= |lines|
      invariant score == LinesScore(lines[..i], bot, opp)
    {
      assert lines[..i + 1][..i] == lines[..i];
      score := score + EvaluateLine(lines[i], bot, opp);
      i := i + 1;
    }
    assert lines[..i] == lines;
  }

  /** The largest magnitude evaluateBoard can produce: every line an open three,
      the centre, and every pair of lines a double threat. */
  const HeuristicBound := LineCount * ThreeOpen + Center + Pairs(LineCount) * DoubleThreat

  lemma {:induction false} LinesScoreBounded(lines: seq<seq<Cell>>, bot: Player, opp: Player)
    requires bot != opp
    requires forall k :: 0 <= k < |lines| ==> |lines[k]| == WinLength
    ensures -ThreeOpen * |lines| <= LinesScore(lines, bot, opp) <= ThreeOpen * |lines|
  {
    if lines != [] {
      LinesScoreBounded(lines[..|lines| - 1], bot, opp);
      EvaluateLineCases(lines[|lines| - 1], bot, opp);
    }
  }

  /** evaluateBoard stays within closed-form bounds. */
  lemma BoardScoreBounded(g: Grid, bot: Player, opp: Player)
    requires IsGrid(g) && bot != opp
    ensures -HeuristicBound <= BoardScore(g, bot, opp) <= HeuristicBound
  {
    var lines := Lines(g);
    LinesScoreBounded(lines, bot, opp);
    ThreatCountBounded(lines, bot);
    ThreatCountBounded(lines, opp);
    PairsMonotone(ThreatCount(lines, bot), LineCount);
    PairsMonotone(ThreatCount(lines, opp), LineCount);
  }

  lemma {:induction false} LinesScoreAntisymmetric(lines: seq<seq<Cell>>, bot: Player, opp: Player)
    ensures LinesScore(lines, opp, bot) == -LinesScore(lines, bot, opp)
  {
    if lines != [] {
      LinesScoreAntisymmetric(lines[..|lines| - 1], bot, opp);
      EvaluateLineAntisymmetric(lines[|lines| - 1], bot, opp);
    }
  }

  /** evaluateBoard is zero-sum: scoring the same board for the other side negates it. */
  lemma BoardScoreAntisymmetric(g: Grid, bot: Player, opp: Player)
    requires IsGrid(g) && bot != opp
    ensures BoardScore(g, opp, bot) == -BoardScore(g, bot, opp)
  {
    LinesScoreAntisymmetric(Lines(g), bot, opp);
  }
}
