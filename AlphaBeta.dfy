/**
 * minimax in bot/tatetiminimax.js: depth-limited minimax with alpha-beta pruning
 * over the move order of MoveOrder, and a random pick among the moves that tie
 * for the best score.
 *
 * `Search` and `Explore` state what the search computes: the score, and the trace
 * of moves it explores with the score each one got, up to the move where it prunes.
 * PlainMinimax proves that this score agrees with minimax without pruning.
 */
module AlphaBeta {
  import opened Wrappers
  import opened Board
  import opened LineCatalog
  import opened Heuristic
  import opened MoveOrder

  /** The bounds alpha and beta and the running best score: -Infinity, a number or Infinity. */
  datatype Bound = NegInf | Fin(n: int) | PosInf

  /** `a <= b` on the extended integers. */
  predicate AtMost(a: Bound, b: Bound) {
    a == NegInf || b == PosInf || (a.Fin? && b.Fin? && a.n <= b.n)
  }

  /** Math.max(a, s). */
  function MaxB(a: Bound, s: int): (r: Bound)
    ensures AtMost(a, r) && AtMost(Fin(s), r) && (r == a || r == Fin(s))
  {
    if AtMost(a, Fin(s)) then Fin(s) else a
  }

  /** Math.min(b, s). */
  function MinB(b: Bound, s: int): (r: Bound)
    ensures AtMost(r, b) && AtMost(r, Fin(s)) && (r == b || r == Fin(s))
  {
    if AtMost(Fin(s), b) then Fin(s) else b
  }

  /** The symbol placed by the side to move. */
  function Mover(isMax: bool, bot: Player, opp: Player): Player {
    if isMax then bot else opp
  }

  /** The base cases of minimax: someone has won, the board is full or the depth is spent. */
  predicate IsLeaf(g: Grid, depth: nat, bot: Player, opp: Player)
    requires IsGrid(g)
  {
    Winner(g) == Some(bot) || Winner(g) == Some(opp) || IsFull(g) || depth == 0
  }

  /** The score of a leaf. */
  function LeafScore(g: Grid, depth: nat, bot: Player, opp: Player): int
    requires IsGrid(g)
  {
    if Winner(g) == Some(bot) then Win + depth
    else if Winner(g) == Some(opp) then -Win - depth
    else BoardScore(g, bot, opp)
  }

  /** The available moves in the order minimax explores them. */
  function OrderedMoves(g: Grid, isMax: bool, bot: Player, opp: Player): (r: seq<Pos>)
    requires IsGrid(g)
    ensures multiset(r) == multiset(AvailableMoves(g))
    ensures |r| == |AvailableMoves(g)|
    ensures forall k :: 0 <= k < |r| ==> InBounds(r[k]) && At(g, r[k]) == Empty
  {
    var avail := AvailableMoves(g);
    AvailableMovesAreEmpty(g);
    var r := Ordered(g, avail, Mover(isMax, bot, opp), bot, opp);
    assert forall k :: 0 <= k < |r| ==> r[k] in avail;
    r
  }

  /** One explored move and the score its subtree returned. */
  datatype Step = Step(move: Pos, score: int)

  /** What minimax returns: the score, and the moves it picks its move from at random
      (none at a leaf, where it returns no move). */
  datatype Outcome = Outcome(score: int, ties: seq<Pos>)

  /** minimax on a board value. `Search` and `Visit` only delegate to `Node`: a proof unfolds
      a recursive function at most twice, so a contract that names the search of some board
      exposes nothing of `Node` unless the proof asks for it. */
  function Search(g: Grid, depth: nat, alpha: Bound, beta: Bound, isMax: bool, bot: Player, opp: Player): Outcome
    requires IsGrid(g)
    decreases depth, 3
  {
    Visit(g, depth, alpha, beta, isMax, bot, opp)
  }

  function Visit(g: Grid, depth: nat, alpha: Bound, beta: Bound, isMax: bool, bot: Player, opp: Player): Outcome
    requires IsGrid(g)
    decreases depth, 2
  {
    Node(g, depth, alpha, beta, isMax, bot, opp)
  }

  /** One node of minimax: a leaf is scored directly; otherwise the ordered moves are explored
      and the best score is returned with the explored moves that reach it. */
  function Node(g: Grid, depth: nat, alpha: Bound, beta: Bound, isMax: bool, bot: Player, opp: Player): Outcome
    requires IsGrid(g)
    decreases depth, 1
  {
    if IsLeaf(g, depth, bot, opp) then Outcome(LeafScore(g, depth, bot, opp), [])
    else
      FullIffNoMoves(g);
      var trace := Explore(g, OrderedMoves(g, isMax, bot, opp), depth, alpha, beta, isMax, bot, opp);
      var best := Best(trace, isMax);
      Outcome(best, Ties(trace, best))
  }

  /** The score minimax returns for `m`: the side to move plays it and the other side searches
      one ply less deep, with the same bounds. */
  function ScoreAfter(g: Grid, m: Pos, depth: nat, alpha: Bound, beta: Bound, isMax: bool,
                      bot: Player, opp: Player): int
    requires IsGrid(g) && InBounds(m) && depth > 0
    decreases depth - 1, 4
  {
    Search(Set(g, m, Mover(isMax, bot, opp)), depth - 1, alpha, beta, !isMax, bot, opp).score
  }

  /** The loop of minimax over `moves`: each move is searched one level deeper with the
      current bounds, then alpha (at a maximizing node) or beta (at a minimizing node) is
      tightened by its score, and the loop stops once beta <= alpha. */
  function Explore(g: Grid, moves: seq<Pos>, depth: nat, alpha: Bound, beta: Bound, isMax: bool,
                   bot: Player, opp: Player): (trace: seq<Step>)
    requires IsGrid(g) && depth > 0
    requires forall k :: 0 <= k < |moves| ==> InBounds(moves[k])
    ensures |trace| <= |moves| && (moves != [] ==> trace != [])
    decreases depth, 0, |moves|
  {
    if moves == [] then []
    else
      var m := moves[0];
      var score := ScoreAfter(g, m, depth, alpha, beta, isMax, bot, opp);
      var alpha' := if isMax then MaxB(alpha, score) else alpha;
      var beta' := if isMax then beta else MinB(beta, score);
      if AtMost(beta', alpha') then [Step(m, score)]
      else [Step(m, score)] + Explore(g, moves[1..], depth, alpha', beta', isMax, bot, opp)
  }

  /** The running maximum (or minimum) of the loop: a later score replaces the best
      only when strictly better. */
  function Best(trace: seq<Step>, isMax: bool): int
    requires trace != []
  {
    if |trace| == 1 then trace[0].score
    else
      var b := Best(trace[..|trace| - 1], isMax);
      var s := trace[|trace| - 1].score;
      if isMax then (if s > b then s else b) else (if s < b then s else b)
  }

  /** bestMoves: the explored moves whose score equals `v`, in exploration order. */
  function Ties(trace: seq<Step>, v: int): seq<Pos> {
    if trace == [] then []
    else Ties(trace[..|trace| - 1], v) + (if trace[|trace| - 1].score == v then [trace[|trace| - 1].move] else [])
  }

  /** The best score is one of the explored scores, and no explored score beats it. */
  lemma {:induction false} BestSpec(trace: seq<Step>, isMax: bool)
    requires trace != []
    ensures exists k :: 0 <= k < |trace| && trace[k].score == Best(trace, isMax)
    ensures forall k :: 0 <= k < |trace| ==>
      if isMax then trace[k].score <= Best(trace, isMax) else trace[k].score >= Best(trace, isMax)
  {
    if |trace| > 1 {
      var init := trace[..|trace| - 1];
      BestSpec(init, isMax);
      var k :| 0 <= k < |init| && init[k].score == Best(init, isMax);
      assert trace[k] == init[k];
      forall j | 0 <= j < |trace|
        ensures if isMax then trace[j].score <= Best(trace, isMax) else trace[j].score >= Best(trace, isMax)
      {
        if j < |init| {
          assert trace[j] == init[j];
        }
      }
    } else {
      assert trace[0].score == Best(trace, isMax);
    }
  }

  /** A move is among the ties for `v` exactly when it was explored and scored `v`. */
  lemma {:induction false} TiesSpec(trace: seq<Step>, v: int, m: Pos)
    ensures m in Ties(trace, v) <==> exists k :: 0 <= k < |trace| && trace[k] == Step(m, v)
  {
    if trace != [] {
      var init := trace[..|trace| - 1];
      TiesSpec(init, v, m);
      if exists k :: 0 <= k < |trace| && trace[k] == Step(m, v) {
        var k :| 0 <= k < |trace| && trace[k] == Step(m, v);
        if k < |init| {
          assert init[k] == trace[k];
        }
      }
      if exists k :: 0 <= k < |init| && init[k] == Step(m, v) {
        var k :| 0 <= k < |init| && init[k] == Step(m, v);
        assert trace[k] == init[k];
      }
    }
  }

  /** No explored move scored `v`: there are no ties for it. */
  lemma {:induction false} TiesNone(trace: seq<Step>, v: int)
    requires forall k :: 0 <= k < |trace| ==> trace[k].score != v
    ensures Ties(trace, v) == []
  {
    if trace != [] {
      TiesNone(trace[..|trace| - 1], v);
    }
  }

  /** Some explored move always ties for the best score. */
  lemma TiesOfBestNonEmpty(trace: seq<Step>, isMax: bool)
    requires trace != []
    ensures Ties(trace, Best(trace, isMax)) != []
  {
    BestSpec(trace, isMax);
    var k :| 0 <= k < |trace| && trace[k].score == Best(trace, isMax);
    TiesSpec(trace, Best(trace, isMax), trace[k].move);
  }

  /** One more explored step: how the running best score and its ties change. */
  lemma RecordStep(done: seq<Step>, step: Step, isMax: bool)
    ensures var d := done + [step];
      (done == [] || (if isMax then step.score > Best(done, isMax) else step.score < Best(done, isMax))) ==>
        Best(d, isMax) == step.score && Ties(d, step.score) == [step.move]
    ensures var d := done + [step];
      done != [] && step.score == Best(done, isMax) ==>
        Best(d, isMax) == step.score && Ties(d, step.score) == Ties(done, step.score) + [step.move]
    ensures var d := done + [step];
      done != [] && (if isMax then step.score < Best(done, isMax) else step.score > Best(done, isMax)) ==>
        Best(d, isMax) == Best(done, isMax) && Ties(d, Best(done, isMax)) == Ties(done, Best(done, isMax))
  {
    var d := done + [step];
    assert d[..|d| - 1] == done;
    if done == [] {
      assert Ties(d, step.score) == Ties([], step.score) + [step.move];
    } else {
      BestSpec(done, isMax);
      if if isMax then step.score > Best(done, isMax) else step.score < Best(done, isMax) {
        TiesNone(done, step.score);
      }
    }
  }

  /** The two cases of minimax: a leaf is scored with no moves; otherwise the score is the
      best of the explored scores and the ties are the explored moves that reach it. */
  lemma SearchCases(g: Grid, depth: nat, alpha: Bound, beta: Bound, isMax: bool, bot: Player, opp: Player)
    requires IsGrid(g)
    ensures IsLeaf(g, depth, bot, opp) ==>
      Search(g, depth, alpha, beta, isMax, bot, opp) == Outcome(LeafScore(g, depth, bot, opp), [])
    ensures !IsLeaf(g, depth, bot, opp) ==>
      var trace := Explore(g, OrderedMoves(g, isMax, bot, opp), depth, alpha, beta, isMax, bot, opp);
      var outcome := Search(g, depth, alpha, beta, isMax, bot, opp);
      trace != [] && outcome.score == Best(trace, isMax) && outcome.ties == Ties(trace, outcome.score)
  {
    assert Search(g, depth, alpha, beta, isMax, bot, opp) == Node(g, depth, alpha, beta, isMax, bot, opp);
    if !IsLeaf(g, depth, bot, opp) {
      FullIffNoMoves(g);
    }
  }

  /** A minimizing node searched with alpha = v stops at its first reply when that reply
      scores exactly v, and returns v whatever the later replies would score. */
  lemma MinNodeStopsAtAlpha(g: Grid, depth: nat, v: int, bot: Player, opp: Player)
    requires IsGrid(g) && !IsLeaf(g, depth, bot, opp) && OrderedMoves(g, false, bot, opp) != []
    requires ScoreAfter(g, OrderedMoves(g, false, bot, opp)[0], depth, Fin(v), PosInf, false, bot, opp) == v
    ensures Search(g, depth, Fin(v), PosInf, false, bot, opp) == Outcome(v, [OrderedMoves(g, false, bot, opp)[0]])
  {
    var moves := OrderedMoves(g, false, bot, opp);
    SearchCases(g, depth, Fin(v), PosInf, false, bot, opp);
    ExploreUnfold(g, moves, depth, Fin(v), PosInf, false, bot, opp);
    assert Explore(g, moves, depth, Fin(v), PosInf, false, bot, opp) == [Step(moves[0], v)];
  }

  /** The first step of the loop of minimax. */
  lemma ExploreUnfold(g: Grid, moves: seq<Pos>, depth: nat, alpha: Bound, beta: Bound, isMax: bool,
                      bot: Player, opp: Player)
    requires IsGrid(g) && depth > 0 && moves != []
    requires forall k :: 0 <= k < |moves| ==> InBounds(moves[k])
    ensures var s := ScoreAfter(g, moves[0], depth, alpha, beta, isMax, bot, opp);
      var alpha' := if isMax then MaxB(alpha, s) else alpha;
      var beta' := if isMax then beta else MinB(beta, s);
      Explore(g, moves, depth, alpha, beta, isMax, bot, opp) ==
        [Step(moves[0], s)] + (if AtMost(beta', alpha') then [] else Explore(g, moves[1..], depth, alpha', beta', isMax, bot, opp))
  {
  }

  /** The loop explores a prefix of the moves, in their order. */
  lemma {:induction false} ExploreFollowsMoves(g: Grid, moves: seq<Pos>, depth: nat, alpha: Bound, beta: Bound,
                                               isMax: bool, bot: Player, opp: Player)
    requires IsGrid(g) && depth > 0
    requires forall k :: 0 <= k < |moves| ==> InBounds(moves[k])
    ensures var trace := Explore(g, moves, depth, alpha, beta, isMax, bot, opp);
      forall k :: 0 <= k < |trace| ==> trace[k].move == moves[k]
    decreases |moves|
  {
    if moves != [] {
      ExploreUnfold(g, moves, depth, alpha, beta, isMax, bot, opp);
      var s := ScoreAfter(g, moves[0], depth, alpha, beta, isMax, bot, opp);
      var alpha' := if isMax then MaxB(alpha, s) else alpha;
      var beta' := if isMax then beta else MinB(beta, s);
      if !AtMost(beta', alpha') {
        ExploreFollowsMoves(g, moves[1..], depth, alpha', beta', isMax, bot, opp);
      }
    }
  }

  /** minimax returns no moves exactly at a leaf, and the moves it returns are empty cells. */
  lemma SearchTies(g: Grid, depth: nat, alpha: Bound, beta: Bound, isMax: bool, bot: Player, opp: Player)
    requires IsGrid(g)
    ensures Search(g, depth, alpha, beta, isMax, bot, opp).ties == [] <==> IsLeaf(g, depth, bot, opp)
    ensures forall m :: m in Search(g, depth, alpha, beta, isMax, bot, opp).ties ==> InBounds(m) && At(g, m) == Empty
  {
    SearchCases(g, depth, alpha, beta, isMax, bot, opp);
    if !IsLeaf(g, depth, bot, opp) {
      var moves := OrderedMoves(g, isMax, bot, opp);
      var trace := Explore(g, moves, depth, alpha, beta, isMax, bot, opp);
      ExploreFollowsMoves(g, moves, depth, alpha, beta, isMax, bot, opp);
      TiesOfBestNonEmpty(trace, isMax);
      TiesAreMoves(trace, moves, Best(trace, isMax));
    }
  }

  /** The ties of a trace that follows `moves` are among `moves`. */
  lemma TiesAreMoves(trace: seq<Step>, moves: seq<Pos>, v: int)
    requires |trace| <= |moves| && forall k :: 0 <= k < |trace| ==> trace[k].move == moves[k]
    ensures forall m :: m in Ties(trace, v) ==> m in moves
  {
    forall m | m in Ties(trace, v) ensures m in moves {
      TiesSpec(trace, v, m);
      var k :| 0 <= k < |trace| && trace[k] == Step(m, v);
      assert moves[k] == m;
    }
  }

  /** The score of a search `depth` plies deep stays within the bound of evaluateBoard plus
      `depth`: a win found with `d` plies left scores Win + d, below that bound. */
  lemma {:induction false} SearchBounded(g: Grid, depth: nat, alpha: Bound, beta: Bound, isMax: bool,
                                         bot: Player, opp: Player)
    requires IsGrid(g) && bot != opp
    ensures -(HeuristicBound + depth) <= Search(g, depth, alpha, beta, isMax, bot, opp).score <= HeuristicBound + depth
    decreases depth, 1
  {
    SearchCases(g, depth, alpha, beta, isMax, bot, opp);
    if IsLeaf(g, depth, bot, opp) {
      BoardScoreBounded(g, bot, opp);
    } else {
      var moves := OrderedMoves(g, isMax, bot, opp);
      var trace := Explore(g, moves, depth, alpha, beta, isMax, bot, opp);
      ExploreBounded(g, moves, depth, alpha, beta, isMax, bot, opp);
      BestSpec(trace, isMax);
    }
  }

  lemma {:induction false} ExploreBounded(g: Grid, moves: seq<Pos>, depth: nat, alpha: Bound, beta: Bound,
                                          isMax: bool, bot: Player, opp: Player)
    requires IsGrid(g) && depth > 0 && bot != opp
    requires forall k :: 0 <= k < |moves| ==> InBounds(moves[k])
    ensures var trace := Explore(g, moves, depth, alpha, beta, isMax, bot, opp);
      forall k :: 0 <= k < |trace| ==>
        -(HeuristicBound + depth - 1) <= trace[k].score <= HeuristicBound + depth - 1
    decreases depth, 0, |moves|
  {
    if moves != [] {
      ExploreUnfold(g, moves, depth, alpha, beta, isMax, bot, opp);
      var s := ScoreAfter(g, moves[0], depth, alpha, beta, isMax, bot, opp);
      SearchBounded(Set(g, moves[0], Mover(isMax, bot, opp)), depth - 1, alpha, beta, !isMax, bot, opp);
      var alpha' := if isMax then MaxB(alpha, s) else alpha;
      var beta' := if isMax then beta else MinB(beta, s);
      if !AtMost(beta', alpha') {
        ExploreBounded(g, moves[1..], depth, alpha', beta', isMax, bot, opp);
      }
    }
  }

  /** minimax: the score of the board for the bot, searching `depth` plies ahead, and at
      an inner node one of the explored moves that tie for the best score, picked at random.
      Moves are written into the board and cleared again, so it ends as it started. */
  method Minimax(board: array2<Cell>, depth: nat, alpha: Bound, beta: Bound, isMax: bool, bot: Player, opp: Player)
    returns (score: int, move: Option<Pos>)
    requires HasBoardShape(board)
    modifies board
    decreases depth, 4
    ensures Snap(board) == old(Snap(board))
    ensures var outcome := Search(old(Snap(board)), depth, alpha, beta, isMax, bot, opp);
      score == outcome.score && (move.None? <==> outcome.ties == []) &&
      (move.Some? ==> move.value in outcome.ties)
  {
    ghost var g := Snap(board);
    SearchCases(g, depth, alpha, beta, isMax, bot, opp);
    var winner := CheckWinner(board);
    if winner == Some(bot) {
      return Win + depth, None;
    }
    if winner == Some(opp) {
      return -Win - depth, None;
    }
    if IsFull(Snap(board)) || depth == 0 {
      score := EvaluateBoard(board, bot, opp);
      return score, None;
    }
    score, move := Expand(board, depth, alpha, beta, isMax, bot, opp);
  }

  /** The inner node of minimax: the available moves are listed, ordered for the side to move
      and explored; the best score is returned with one of the moves that reach it. */
  method Expand(board: array2<Cell>, depth: nat, alpha: Bound, beta: Bound, isMax: bool, bot: Player, opp: Player)
    returns (score: int, move: Option<Pos>)
    requires HasBoardShape(board) && depth > 0 && !IsFull(Snap(board))
    modifies board
    decreases depth, 3
    ensures Snap(board) == old(Snap(board))
    ensures var trace := Explore(old(Snap(board)), OrderedMoves(old(Snap(board)), isMax, bot, opp),
                                 depth, alpha, beta, isMax, bot, opp);
      trace != [] && score == Best(trace, isMax) && move.Some? && move.value in Ties(trace, score)
  {
    ghost var g := Snap(board);
    FullIffNoMoves(g);
    AvailableMovesAreEmpty(g);
    var available := GetAvailableMoves(board);
    var ordered := OrderMoves(board, available, Mover(isMax, bot, opp), bot, opp);
    var bestMoves;
    score, bestMoves := ExploreMoves(board, ordered, depth, alpha, beta, isMax, bot, opp);
    TiesOfBestNonEmpty(Explore(g, ordered, depth, alpha, beta, isMax, bot, opp), isMax);
    var k :| 0 <= k < |bestMoves|;
    move := Some(bestMoves[k]);
  }

  /** The loop of minimax over the ordered moves: each move is played, searched one ply
      deeper and taken back; the best score so far and the moves that tie for it are kept,
      alpha or beta is tightened, and the loop stops once beta <= alpha. */
  method ExploreMoves(board: array2<Cell>, ordered: seq<Pos>, depth: nat, alpha: Bound, beta: Bound,
                      isMax: bool, bot: Player, opp: Player)
    returns (score: int, bestMoves: seq<Pos>)
    requires HasBoardShape(board) && depth > 0 && ordered != [] && FreeCells(Snap(board), ordered)
    modifies board
    decreases depth, 2
    ensures Snap(board) == old(Snap(board))
    ensures var trace := Explore(old(Snap(board)), ordered, depth, alpha, beta, isMax, bot, opp);
      score == Best(trace, isMax) && bestMoves == Ties(trace, score)
  {
    ghost var g := Snap(board);
    ghost var trace := Explore(g, ordered, depth, alpha, beta, isMax, bot, opp);
    var a, b := alpha, beta;
    var best: Bound := if isMax then NegInf else PosInf;
    bestMoves := [];
    ghost var done: seq<Step> := [];
    ghost var rest := trace;
    var i: nat := 0;
    var pruned := false;
    LoopStart(g, ordered, depth, isMax, bot, opp, alpha, beta);
    while i < |ordered| && !pruned
      invariant LoopState(g, ordered, depth, isMax, bot, opp, trace, i, a, b, done, rest, pruned, best, bestMoves)
      invariant Holds(board, g)
    {
      a, b, best, bestMoves, pruned, done, rest := ExploreOne(board, g, ordered, i, depth, a, b, isMax, bot, opp,
                                                               best, bestMoves, trace, done, rest);
      i := i + 1;
    }
    SnapIs(board, g);
    ExploreFinished(g, ordered, depth, isMax, bot, opp, trace, i, a, b, done, rest, pruned, best, bestMoves);
    score := best.n;
  }

  /** The body of the loop of minimax: play and search move `i`, keep the best score and its
      ties, tighten alpha or beta, and tell whether the loop stops here. */
  method ExploreOne(board: array2<Cell>, ghost g: Grid, ordered: seq<Pos>, i: nat, depth: nat, a: Bound, b: Bound,
                    isMax: bool, bot: Player, opp: Player, best: Bound, bestMoves: seq<Pos>,
                    ghost trace: seq<Step>, ghost done: seq<Step>, ghost rest: seq<Step>)
    returns (a': Bound, b': Bound, best': Bound, bestMoves': seq<Pos>, pruned: bool,
             ghost done': seq<Step>, ghost rest': seq<Step>)
    requires HasBoardShape(board) && Holds(board, g) && i < |ordered| && FreeCells(g, ordered)
    requires LoopState(g, ordered, depth, isMax, bot, opp, trace, i, a, b, done, rest, false, best, bestMoves)
    modifies board
    decreases depth, 1
    ensures Holds(board, g)
    ensures LoopState(g, ordered, depth, isMax, bot, opp, trace, i + 1, a', b', done', rest', pruned, best', bestMoves')
  {
    var m := ordered[i];
    SnapIs(board, g);
    var s := PlayAndSearch(board, m, depth, a, b, isMax, bot, opp);
    ProgressStep(g, ordered, depth, isMax, bot, opp, trace, i, a, b, done, rest);
    best', bestMoves' := KeepBest(best, bestMoves, m, s, isMax, done);
    a', b' := a, b;
    if isMax {
      a' := MaxB(a, s);
    } else {
      b' := MinB(b, s);
    }
    done' := done + [Step(m, s)];
    rest' := rest[1..];
    pruned := AtMost(b', a');
  }

  /** The state of the loop of minimax after `i` moves: the explored steps `done` with their
      running best score and ties, and either the pruned end of the trace or, as Progress
      says, the rest of it still ahead. */
  ghost predicate LoopState(g: Grid, ordered: seq<Pos>, depth: nat, isMax: bool, bot: Player, opp: Player,
                            trace: seq<Step>, i: nat, a: Bound, b: Bound, done: seq<Step>, rest: seq<Step>,
                            pruned: bool, best: Bound, bestMoves: seq<Pos>) {
    |done| == i && Running(done, best, bestMoves, isMax) &&
    if pruned then trace == done && trace != []
    else Progress(g, ordered, depth, isMax, bot, opp, trace, i, a, b, done, rest)
  }

  /** Where the loop of minimax stands against the trace it follows: `i` moves explored as
      `done`, and `rest` the trace Explore gives the remaining moves under the current bounds. */
  ghost predicate Progress(g: Grid, ordered: seq<Pos>, depth: nat, isMax: bool, bot: Player, opp: Player,
                           trace: seq<Step>, i: nat, a: Bound, b: Bound, done: seq<Step>, rest: seq<Step>) {
    IsGrid(g) && depth > 0 && (forall k :: 0 <= k < |ordered| ==> InBounds(ordered[k])) &&
    i <= |ordered| && |done| == i &&
    rest == Explore(g, ordered[i..], depth, a, b, isMax, bot, opp) && trace == done + rest
  }

  /** The mutable board holds the board value `g`. */
  predicate Holds(board: array2<Cell>, g: Grid)
    reads board
  {
    HasBoardShape(board) && IsGrid(g) && forall r, c :: 0 <= r < BoardSize && 0 <= c < BoardSize ==> board[r, c] == g[r][c]
  }

  /** The moves are empty cells of the board `g`. */
  predicate FreeCells(g: Grid, moves: seq<Pos>) {
    IsGrid(g) && forall k :: 0 <= k < |moves| ==> InBounds(moves[k]) && At(g, moves[k]) == Empty
  }

  /** Before the loop of minimax nothing is explored and the whole trace lies ahead. */
  lemma LoopStart(g: Grid, ordered: seq<Pos>, depth: nat, isMax: bool, bot: Player, opp: Player,
                  alpha: Bound, beta: Bound)
    requires IsGrid(g) && depth > 0 && forall k :: 0 <= k < |ordered| ==> InBounds(ordered[k])
    ensures var trace := Explore(g, ordered, depth, alpha, beta, isMax, bot, opp);
      LoopState(g, ordered, depth, isMax, bot, opp, trace, 0, alpha, beta, [], trace, false,
                if isMax then NegInf else PosInf, [])
  {
    assert ordered[0..] == ordered;
  }

  /** When the loop of minimax ends, by pruning or by running out of moves, it has explored
      the whole trace, and its running best score and ties are those of the trace. */
  lemma ExploreFinished(g: Grid, ordered: seq<Pos>, depth: nat, isMax: bool, bot: Player, opp: Player,
                        trace: seq<Step>, i: nat, a: Bound, b: Bound, done: seq<Step>, rest: seq<Step>,
                        pruned: bool, best: Bound, bestMoves: seq<Pos>)
    requires ordered != [] && (pruned || i >= |ordered|)
    requires LoopState(g, ordered, depth, isMax, bot, opp, trace, i, a, b, done, rest, pruned, best, bestMoves)
    ensures trace == done && done != [] && best.Fin?
    ensures best.n == Best(trace, isMax) && bestMoves == Ties(trace, best.n)
  {
    if !pruned {
      assert ordered[i..] == [];
    }
  }

  /** One iteration of the loop of minimax: the searched move and its score join `done`; the
      trace then ends if the tightened bounds prune, and the loop goes on otherwise. */
  lemma ProgressStep(g: Grid, ordered: seq<Pos>, depth: nat, isMax: bool, bot: Player, opp: Player,
                     trace: seq<Step>, i: nat, a: Bound, b: Bound, done: seq<Step>, rest: seq<Step>)
    requires Progress(g, ordered, depth, isMax, bot, opp, trace, i, a, b, done, rest) && i < |ordered|
    ensures var s := ScoreAfter(g, ordered[i], depth, a, b, isMax, bot, opp);
      var a' := if isMax then MaxB(a, s) else a;
      var b' := if isMax then b else MinB(b, s);
      var done' := done + [Step(ordered[i], s)];
      if AtMost(b', a') then trace == done'
      else Progress(g, ordered, depth, isMax, bot, opp, trace, i + 1, a', b', done', rest[1..])
  {
    ExploreStep(g, ordered, i, depth, a, b, isMax, bot, opp, done, rest);
  }

  /** The running best score and its ties after the explored steps `done`: the starting
      -Infinity (or Infinity) and no moves before the first step. */
  ghost predicate Running(done: seq<Step>, best: Bound, bestMoves: seq<Pos>, isMax: bool) {
    if done == [] then best == (if isMax then NegInf else PosInf) && bestMoves == []
    else best == Fin(Best(done, isMax)) && bestMoves == Ties(done, Best(done, isMax))
  }

  /** The bookkeeping of one iteration of the loop of minimax: a strictly better score starts
      a new list of best moves, an equal score joins it, a worse one changes nothing. */
  method KeepBest(best: Bound, bestMoves: seq<Pos>, m: Pos, s: int, isMax: bool, ghost done: seq<Step>)
    returns (best': Bound, bestMoves': seq<Pos>)
    requires Running(done, best, bestMoves, isMax)
    ensures Running(done + [Step(m, s)], best', bestMoves', isMax)
  {
    RecordStep(done, Step(m, s), isMax);
    best', bestMoves' := best, bestMoves;
    if isMax {
      if !AtMost(Fin(s), best) {
        best', bestMoves' := Fin(s), [m];
      } else if best == Fin(s) {
        bestMoves' := bestMoves + [m];
      }
    } else {
      if !AtMost(best, Fin(s)) {
        best', bestMoves' := Fin(s), [m];
      } else if best == Fin(s) {
        bestMoves' := bestMoves + [m];
      }
    }
  }

  /** One move of the loop of minimax: the side to move plays `m`, the rest of the game is
      searched one ply deeper, and the cell is cleared again. */
  method PlayAndSearch(board: array2<Cell>, m: Pos, depth: nat, alpha: Bound, beta: Bound,
                       isMax: bool, bot: Player, opp: Player)
    returns (score: int)
    requires HasBoardShape(board) && depth > 0 && InBounds(m) && board[m.row, m.col] == Empty
    modifies board
    decreases depth, 0
    ensures Snap(board) == old(Snap(board))
    ensures score == ScoreAfter(old(Snap(board)), m, depth, alpha, beta, isMax, bot, opp)
  {
    ghost var g := Snap(board);
    ghost var child := Set(g, m, Mover(isMax, bot, opp));
    var childMove;
    if isMax {
      board[m.row, m.col] := bot;
      SnapIs(board, child);
      score, childMove := Minimax(board, depth - 1, alpha, beta, false, bot, opp);
    } else {
      board[m.row, m.col] := opp;
      SnapIs(board, child);
      score, childMove := Minimax(board, depth - 1, alpha, beta, true, bot, opp);
    }
    board[m.row, m.col] := Empty;
    SnapIs(board, g);
  }

  /** One iteration of the loop of minimax against the trace it follows: the next step is the
      searched move with its score, and after it the trace stops or goes on with the tightened bounds. */
  lemma ExploreStep(g: Grid, ordered: seq<Pos>, i: nat, depth: nat, a: Bound, b: Bound, isMax: bool,
                    bot: Player, opp: Player, done: seq<Step>, rest: seq<Step>)
    requires IsGrid(g) && depth > 0 && i < |ordered|
    requires forall k :: 0 <= k < |ordered| ==> InBounds(ordered[k])
    requires rest == Explore(g, ordered[i..], depth, a, b, isMax, bot, opp)
    ensures var s := ScoreAfter(g, ordered[i], depth, a, b, isMax, bot, opp);
      var a' := if isMax then MaxB(a, s) else a;
      var b' := if isMax then b else MinB(b, s);
      rest != [] && done + rest == (done + [Step(ordered[i], s)]) + rest[1..] &&
      rest[1..] == (if AtMost(b', a') then [] else Explore(g, ordered[i + 1..], depth, a', b', isMax, bot, opp))
  {
    var m := ordered[i];
    var s := ScoreAfter(g, m, depth, a, b, isMax, bot, opp);
    var a' := if isMax then MaxB(a, s) else a;
    var b' := if isMax then b else MinB(b, s);
    ExploreUnfold(g, ordered[i..], depth, a, b, isMax, bot, opp);
    assert ordered[i..][0] == m && ordered[i..][1..] == ordered[i + 1..];
    var tail := if AtMost(b', a') then [] else Explore(g, ordered[i + 1..], depth, a', b', isMax, bot, opp);
    ConsStep(done, Step(m, s), tail, rest);
  }

  /** Moving the head of `rest` to the end of `done` keeps their concatenation. */
  lemma ConsStep<T>(done: seq<T>, x: T, tail: seq<T>, rest: seq<T>)
    requires rest == [x] + tail
    ensures rest != [] && rest[1..] == tail && done + rest == (done + [x]) + rest[1..]
  {
  }
}
