/**
 * Minimax without pruning, over every empty cell in any order, and the theorem that the
 * alpha-beta search of minimax in bot/tatetiminimax.js agrees with it: the search returns
 * the exact minimax value when called with the window (-Infinity, Infinity), as getBestMove
 * does, and an upper or lower bound of it when the score falls outside a narrower window.
 */
module PlainMinimax {
  import opened Board
  import opened AlphaBeta

  /** The minimax value of the board after the side to move plays `m`. */
  function ChildValue(g: Grid, m: Pos, depth: nat, isMax: bool, bot: Player, opp: Player): int
    requires IsGrid(g) && InBounds(m) && depth > 0
    decreases depth - 1, 2
  {
    Value(Set(g, m, Mover(isMax, bot, opp)), depth - 1, !isMax, bot, opp)
  }

  /** Plain minimax: a leaf is scored as the search scores it; otherwise the side to move
      takes the best child value over all empty cells. */
  function Value(g: Grid, depth: nat, isMax: bool, bot: Player, opp: Player): int
    requires IsGrid(g)
    decreases depth, 1
  {
    if IsLeaf(g, depth, bot, opp) then LeafScore(g, depth, bot, opp)
    else
      FullIffNoMoves(g);
      AvailableMovesAreEmpty(g);
      BestValue(g, AvailableMoves(g), depth, isMax, bot, opp)
  }

  /** The largest (or smallest) child value over `moves`. */
  function BestValue(g: Grid, moves: seq<Pos>, depth: nat, isMax: bool, bot: Player, opp: Player): int
    requires IsGrid(g) && depth > 0 && moves != []
    requires forall k :: 0 <= k < |moves| ==> InBounds(moves[k])
    decreases depth, 0, |moves|
  {
    var v := ChildValue(g, moves[0], depth, isMax, bot, opp);
    if |moves| == 1 then v
    else
      var r := BestValue(g, moves[1..], depth, isMax, bot, opp);
      if isMax then (if v < r then r else v) else (if r < v then r else v)
  }

  /** The best child value is reached by one of the moves and is not beaten by any. */
  lemma {:induction false} BestValueSpec(g: Grid, moves: seq<Pos>, depth: nat, isMax: bool, bot: Player, opp: Player)
    requires IsGrid(g) && depth > 0 && moves != []
    requires forall k :: 0 <= k < |moves| ==> InBounds(moves[k])
    ensures var r := BestValue(g, moves, depth, isMax, bot, opp);
      (exists k :: 0 <= k < |moves| && ChildValue(g, moves[k], depth, isMax, bot, opp) == r) &&
      forall k :: 0 <= k < |moves| ==>
        if isMax then ChildValue(g, moves[k], depth, isMax, bot, opp) <= r
        else r <= ChildValue(g, moves[k], depth, isMax, bot, opp)
  {
    var r := BestValue(g, moves, depth, isMax, bot, opp);
    if |moves| == 1 {
      assert ChildValue(g, moves[0], depth, isMax, bot, opp) == r;
    } else {
      var rest := moves[1..];
      BestValueSpec(g, rest, depth, isMax, bot, opp);
      var j :| 0 <= j < |rest| && ChildValue(g, rest[j], depth, isMax, bot, opp) == BestValue(g, rest, depth, isMax, bot, opp);
      assert moves[j + 1] == rest[j];
      if r == ChildValue(g, moves[0], depth, isMax, bot, opp) {
        assert ChildValue(g, moves[0], depth, isMax, bot, opp) == r;
      } else {
        assert ChildValue(g, moves[j + 1], depth, isMax, bot, opp) == r;
      }
      forall k | 1 <= k < |moves|
        ensures if isMax then ChildValue(g, moves[k], depth, isMax, bot, opp) <= r
                else r <= ChildValue(g, moves[k], depth, isMax, bot, opp)
      {
        assert moves[k] == rest[k - 1];
      }
    }
  }

  /** At an inner node the value is the best child value over the empty cells. */
  lemma ValueSpec(g: Grid, depth: nat, isMax: bool, bot: Player, opp: Player)
    requires IsGrid(g) && !IsLeaf(g, depth, bot, opp)
    ensures exists m :: InBounds(m) && At(g, m) == Empty && ChildValue(g, m, depth, isMax, bot, opp) == Value(g, depth, isMax, bot, opp)
    ensures forall m :: InBounds(m) && At(g, m) == Empty ==>
      if isMax then ChildValue(g, m, depth, isMax, bot, opp) <= Value(g, depth, isMax, bot, opp)
      else Value(g, depth, isMax, bot, opp) <= ChildValue(g, m, depth, isMax, bot, opp)
  {
    var moves := AvailableMoves(g);
    FullIffNoMoves(g);
    AvailableMovesAreEmpty(g);
    AvailableMovesSpec(g);
    BestValueSpec(g, moves, depth, isMax, bot, opp);
    var k :| 0 <= k < |moves| && ChildValue(g, moves[k], depth, isMax, bot, opp) == BestValue(g, moves, depth, isMax, bot, opp);
    assert InBounds(moves[k]) && At(g, moves[k]) == Empty;
    forall m | InBounds(m) && At(g, m) == Empty
      ensures if isMax then ChildValue(g, m, depth, isMax, bot, opp) <= Value(g, depth, isMax, bot, opp)
              else Value(g, depth, isMax, bot, opp) <= ChildValue(g, m, depth, isMax, bot, opp)
    {
      assert m in moves;
    }
  }

  /** The child values of `moves`, in their order. */
  function ChildValues(g: Grid, moves: seq<Pos>, depth: nat, isMax: bool, bot: Player, opp: Player): (vals: seq<int>)
    requires IsGrid(g) && depth > 0
    requires forall k :: 0 <= k < |moves| ==> InBounds(moves[k])
    ensures |vals| == |moves|
    ensures forall k :: 0 <= k < |moves| ==> vals[k] == ChildValue(g, moves[k], depth, isMax, bot, opp)
  {
    seq(|moves|, k requires 0 <= k < |moves| => ChildValue(g, moves[k], depth, isMax, bot, opp))
  }

  /** The first explored step that reaches the best score: every earlier step is strictly worse. */
  lemma {:induction false} BestFirst(trace: seq<Step>, isMax: bool)
    requires trace != []
    ensures exists k :: (0 <= k < |trace| && trace[k].score == Best(trace, isMax) &&
      forall j :: 0 <= j < k ==> if isMax then trace[j].score < trace[k].score else trace[j].score > trace[k].score)
  {
    if |trace| > 1 {
      var init := trace[..|trace| - 1];
      BestFirst(init, isMax);
      var k :| 0 <= k < |init| && init[k].score == Best(init, isMax) &&
        forall j :: 0 <= j < k ==> if isMax then init[j].score < init[k].score else init[j].score > init[k].score;
      var s := trace[|trace| - 1].score;
      if Best(trace, isMax) == Best(init, isMax) {
        assert trace[k] == init[k];
        forall j | 0 <= j < k ensures if isMax then trace[j].score < trace[k].score else trace[j].score > trace[k].score {
          assert trace[j] == init[j];
        }
      } else {
        BestSpec(init, isMax);
        forall j | 0 <= j < |trace| - 1
          ensures if isMax then trace[j].score < s else trace[j].score > s
        {
          assert trace[j] == init[j];
        }
      }
    } else {
      assert trace[0].score == Best(trace, isMax);
    }
  }

  /** The position of an available move in the moves minimax explores. */
  lemma OrderedIndex(g: Grid, m: Pos, isMax: bool, bot: Player, opp: Player)
    requires IsGrid(g) && InBounds(m) && At(g, m) == Empty
    ensures exists k :: 0 <= k < |OrderedMoves(g, isMax, bot, opp)| && OrderedMoves(g, isMax, bot, opp)[k] == m
  {
    var moves := OrderedMoves(g, isMax, bot, opp);
    AvailableMovesSpec(g);
    assert m in multiset(AvailableMoves(g));
    assert m in multiset(moves);
  }

  /** Step `k` scores strictly more than every step before it. */
  predicate FirstAbove(trace: seq<Step>, k: nat)
    requires k < |trace|
  {
    forall j :: 0 <= j < k ==> trace[j].score < trace[k].score
  }

  /** Step `k` scores strictly less than every step before it. */
  predicate FirstBelow(trace: seq<Step>, k: nat)
    requires k < |trace|
  {
    forall j :: 0 <= j < k ==> trace[j].score > trace[k].score
  }

  /** The loop at a node of the bot, step by step against the child values `vals`: a step
      scored below beta bounds its child's value from above; the first step to reach a score
      above alpha bounds it from below; and while every score stays below beta nothing is
      pruned. */
  ghost predicate MaxSound(trace: seq<Step>, vals: seq<int>, alpha: Bound, beta: Bound)
    requires |trace| <= |vals|
  {
    (forall k :: 0 <= k < |trace| && !AtMost(beta, Fin(trace[k].score)) ==> vals[k] <= trace[k].score) &&
    (forall k :: 0 <= k < |trace| && !AtMost(Fin(trace[k].score), alpha) && FirstAbove(trace, k) ==>
      trace[k].score <= vals[k]) &&
    ((forall k :: 0 <= k < |trace| ==> !AtMost(beta, Fin(trace[k].score))) ==> |trace| == |vals|)
  }

  /** The mirror image of MaxSound at a node of the opponent. */
  ghost predicate MinSound(trace: seq<Step>, vals: seq<int>, alpha: Bound, beta: Bound)
    requires |trace| <= |vals|
  {
    (forall k :: 0 <= k < |trace| && !AtMost(Fin(trace[k].score), alpha) ==> trace[k].score <= vals[k]) &&
    (forall k :: 0 <= k < |trace| && !AtMost(beta, Fin(trace[k].score)) && FirstBelow(trace, k) ==>
      vals[k] <= trace[k].score) &&
    ((forall k :: 0 <= k < |trace| ==> !AtMost(Fin(trace[k].score), alpha)) ==> |trace| == |vals|)
  }

  /** A first step that bounds its child's value, followed by a sound rest of the loop under
      the tightened alpha, makes a sound loop. */
  lemma MaxSoundCons(m: Pos, s: int, tail: seq<Step>, vals: seq<int>, alpha: Bound, beta: Bound)
    requires vals != [] && |tail| <= |vals| - 1 && !AtMost(beta, alpha)
    requires !AtMost(Fin(s), alpha) ==> s <= vals[0]
    requires !AtMost(beta, Fin(s)) ==> vals[0] <= s
    requires MaxSound(tail, vals[1..], MaxB(alpha, s), beta)
    ensures MaxSound([Step(m, s)] + tail, vals, alpha, beta)
  {
    var trace := [Step(m, s)] + tail;
    forall k | 1 <= k < |trace| ensures trace[k] == tail[k - 1] && vals[k] == vals[1..][k - 1] {
    }
    forall k | 1 <= k < |trace| && !AtMost(Fin(trace[k].score), alpha) && FirstAbove(trace, k)
      ensures trace[k].score <= vals[k]
    {
      assert trace[0].score < trace[k].score;
      forall j | 0 <= j < k - 1 ensures tail[j].score < tail[k - 1].score {
        assert trace[j + 1] == tail[j];
      }
      assert FirstAbove(tail, k - 1);
    }
    if forall k :: 0 <= k < |trace| ==> !AtMost(beta, Fin(trace[k].score)) {
      forall k | 0 <= k < |tail| ensures !AtMost(beta, Fin(tail[k].score)) {
        assert tail[k] == trace[k + 1];
      }
    }
  }

  /** The mirror image of MaxSoundCons. */
  lemma MinSoundCons(m: Pos, s: int, tail: seq<Step>, vals: seq<int>, alpha: Bound, beta: Bound)
    requires vals != [] && |tail| <= |vals| - 1 && !AtMost(beta, alpha)
    requires !AtMost(Fin(s), alpha) ==> s <= vals[0]
    requires !AtMost(beta, Fin(s)) ==> vals[0] <= s
    requires MinSound(tail, vals[1..], alpha, MinB(beta, s))
    ensures MinSound([Step(m, s)] + tail, vals, alpha, beta)
  {
    var trace := [Step(m, s)] + tail;
    forall k | 1 <= k < |trace| ensures trace[k] == tail[k - 1] && vals[k] == vals[1..][k - 1] {
    }
    forall k | 1 <= k < |trace| && !AtMost(beta, Fin(trace[k].score)) && FirstBelow(trace, k)
      ensures vals[k] <= trace[k].score
    {
      assert trace[0].score > trace[k].score;
      forall j | 0 <= j < k - 1 ensures tail[j].score > tail[k - 1].score {
        assert trace[j + 1] == tail[j];
      }
      assert FirstBelow(tail, k - 1);
    }
    if forall k :: 0 <= k < |trace| ==> !AtMost(Fin(trace[k].score), alpha) {
      forall k | 0 <= k < |tail| ensures !AtMost(Fin(tail[k].score), alpha) {
        assert tail[k] == trace[k + 1];
      }
    }
  }

  /** The child values of the moves after the first. */
  lemma ChildValuesTail(g: Grid, moves: seq<Pos>, depth: nat, isMax: bool, bot: Player, opp: Player)
    requires IsGrid(g) && depth > 0 && moves != []
    requires forall k :: 0 <= k < |moves| ==> InBounds(moves[k])
    ensures ChildValues(g, moves, depth, isMax, bot, opp)[1..] == ChildValues(g, moves[1..], depth, isMax, bot, opp)
  {
    var vals, rest := ChildValues(g, moves, depth, isMax, bot, opp), ChildValues(g, moves[1..], depth, isMax, bot, opp);
    forall k | 0 <= k < |rest| ensures vals[1..][k] == rest[k] {
      assert moves[1..][k] == moves[k + 1];
    }
  }

  /** Alpha-beta agrees with plain minimax (fail-soft): a score above alpha is at most the
      minimax value, and a score below beta is at least it. */
  lemma {:induction false} SearchAgrees(g: Grid, depth: nat, alpha: Bound, beta: Bound, isMax: bool,
                                        bot: Player, opp: Player)
    requires IsGrid(g) && !AtMost(beta, alpha)
    ensures var v := Search(g, depth, alpha, beta, isMax, bot, opp).score;
      (!AtMost(Fin(v), alpha) ==> v <= Value(g, depth, isMax, bot, opp)) &&
      (!AtMost(beta, Fin(v)) ==> Value(g, depth, isMax, bot, opp) <= v)
    decreases depth, 2
  {
    SearchCases(g, depth, alpha, beta, isMax, bot, opp);
    if !IsLeaf(g, depth, bot, opp) {
      FullIffNoMoves(g);
      var moves := OrderedMoves(g, isMax, bot, opp);
      if isMax {
        ExploreMaxAgrees(g, moves, depth, alpha, beta, bot, opp);
        MaxNodeAgrees(g, depth, alpha, beta, bot, opp);
      } else {
        ExploreMinAgrees(g, moves, depth, alpha, beta, bot, opp);
        MinNodeAgrees(g, depth, alpha, beta, bot, opp);
      }
    }
  }

  /** What a sound loop at a node of the bot says about its best score: above alpha, some
      child value reaches it; below beta, every move was explored and no child value exceeds it. */
  lemma MaxSoundBest(trace: seq<Step>, vals: seq<int>, alpha: Bound, beta: Bound)
    requires trace != [] && |trace| <= |vals| && MaxSound(trace, vals, alpha, beta)
    ensures !AtMost(Fin(Best(trace, true)), alpha) ==> exists k :: 0 <= k < |vals| && Best(trace, true) <= vals[k]
    ensures !AtMost(beta, Fin(Best(trace, true))) ==> forall k :: 0 <= k < |vals| ==> vals[k] <= Best(trace, true)
  {
    var v := Best(trace, true);
    BestSpec(trace, true);
    if !AtMost(Fin(v), alpha) {
      BestFirst(trace, true);
      var k :| 0 <= k < |trace| && trace[k].score == v &&
        forall j :: 0 <= j < k ==> trace[j].score < trace[k].score;
      assert FirstAbove(trace, k);
    }
  }

  /** The mirror image of MaxSoundBest. */
  lemma MinSoundBest(trace: seq<Step>, vals: seq<int>, alpha: Bound, beta: Bound)
    requires trace != [] && |trace| <= |vals| && MinSound(trace, vals, alpha, beta)
    ensures !AtMost(beta, Fin(Best(trace, false))) ==> exists k :: 0 <= k < |vals| && vals[k] <= Best(trace, false)
    ensures !AtMost(Fin(Best(trace, false)), alpha) ==> forall k :: 0 <= k < |vals| ==> Best(trace, false) <= vals[k]
  {
    var v := Best(trace, false);
    BestSpec(trace, false);
    if !AtMost(beta, Fin(v)) {
      BestFirst(trace, false);
      var k :| 0 <= k < |trace| && trace[k].score == v &&
        forall j :: 0 <= j < k ==> trace[j].score > trace[k].score;
      assert FirstBelow(trace, k);
    }
  }

  /** At an inner node some move, in the order minimax explores them, reaches the value. */
  lemma OrderedValueReached(g: Grid, depth: nat, isMax: bool, bot: Player, opp: Player)
    requires IsGrid(g) && !IsLeaf(g, depth, bot, opp)
    ensures var vals := ChildValues(g, OrderedMoves(g, isMax, bot, opp), depth, isMax, bot, opp);
      exists k :: 0 <= k < |vals| && vals[k] == Value(g, depth, isMax, bot, opp)
  {
    var moves := OrderedMoves(g, isMax, bot, opp);
    var vals := ChildValues(g, moves, depth, isMax, bot, opp);
    ValueSpec(g, depth, isMax, bot, opp);
    var m :| InBounds(m) && At(g, m) == Empty && ChildValue(g, m, depth, isMax, bot, opp) == Value(g, depth, isMax, bot, opp);
    OrderedIndex(g, m, isMax, bot, opp);
    var k :| 0 <= k < |moves| && moves[k] == m;
    assert vals[k] == Value(g, depth, isMax, bot, opp);
  }

  /** At an inner node no move, in the order minimax explores them, beats the value. */
  lemma OrderedValueBounds(g: Grid, depth: nat, isMax: bool, bot: Player, opp: Player)
    requires IsGrid(g) && !IsLeaf(g, depth, bot, opp)
    ensures var vals := ChildValues(g, OrderedMoves(g, isMax, bot, opp), depth, isMax, bot, opp);
      forall k :: 0 <= k < |vals| ==>
        if isMax then vals[k] <= Value(g, depth, isMax, bot, opp) else Value(g, depth, isMax, bot, opp) <= vals[k]
  {
    var moves := OrderedMoves(g, isMax, bot, opp);
    var vals := ChildValues(g, moves, depth, isMax, bot, opp);
    ValueSpec(g, depth, isMax, bot, opp);
    forall j | 0 <= j < |vals|
      ensures if isMax then vals[j] <= Value(g, depth, isMax, bot, opp) else Value(g, depth, isMax, bot, opp) <= vals[j]
    {
      assert InBounds(moves[j]) && At(g, moves[j]) == Empty;
      assert vals[j] == ChildValue(g, moves[j], depth, isMax, bot, opp);
    }
  }

  /** SearchAgrees at an inner node of the bot, given that its loop is sound. */
  lemma MaxNodeAgrees(g: Grid, depth: nat, alpha: Bound, beta: Bound, bot: Player, opp: Player)
    requires IsGrid(g) && !AtMost(beta, alpha) && !IsLeaf(g, depth, bot, opp)
    requires MaxSound(Explore(g, OrderedMoves(g, true, bot, opp), depth, alpha, beta, true, bot, opp),
                      ChildValues(g, OrderedMoves(g, true, bot, opp), depth, true, bot, opp), alpha, beta)
    ensures var v := Search(g, depth, alpha, beta, true, bot, opp).score;
      (!AtMost(Fin(v), alpha) ==> v <= Value(g, depth, true, bot, opp)) &&
      (!AtMost(beta, Fin(v)) ==> Value(g, depth, true, bot, opp) <= v)
  {
    SearchCases(g, depth, alpha, beta, true, bot, opp);
    var moves := OrderedMoves(g, true, bot, opp);
    var trace := Explore(g, moves, depth, alpha, beta, true, bot, opp);
    var vals := ChildValues(g, moves, depth, true, bot, opp);
    var v, V := Best(trace, true), Value(g, depth, true, bot, opp);
    OrderedValueReached(g, depth, true, bot, opp);
    OrderedValueBounds(g, depth, true, bot, opp);
    MaxSoundBest(trace, vals, alpha, beta);
    if !AtMost(Fin(v), alpha) {
      var k :| 0 <= k < |vals| && v <= vals[k];
      assert vals[k] <= V;
    }
    if !AtMost(beta, Fin(v)) {
      var k :| 0 <= k < |vals| && vals[k] == V;
      assert vals[k] <= v;
    }
  }

  /** SearchAgrees at an inner node of the opponent, given that its loop is sound. */
  lemma MinNodeAgrees(g: Grid, depth: nat, alpha: Bound, beta: Bound, bot: Player, opp: Player)
    requires IsGrid(g) && !AtMost(beta, alpha) && !IsLeaf(g, depth, bot, opp)
    requires MinSound(Explore(g, OrderedMoves(g, false, bot, opp), depth, alpha, beta, false, bot, opp),
                      ChildValues(g, OrderedMoves(g, false, bot, opp), depth, false, bot, opp), alpha, beta)
    ensures var v := Search(g, depth, alpha, beta, false, bot, opp).score;
      (!AtMost(Fin(v), alpha) ==> v <= Value(g, depth, false, bot, opp)) &&
      (!AtMost(beta, Fin(v)) ==> Value(g, depth, false, bot, opp) <= v)
  {
    SearchCases(g, depth, alpha, beta, false, bot, opp);
    var moves := OrderedMoves(g, false, bot, opp);
    var trace := Explore(g, moves, depth, alpha, beta, false, bot, opp);
    var vals := ChildValues(g, moves, depth, false, bot, opp);
    var v, V := Best(trace, false), Value(g, depth, false, bot, opp);
    OrderedValueReached(g, depth, false, bot, opp);
    OrderedValueBounds(g, depth, false, bot, opp);
    MinSoundBest(trace, vals, alpha, beta);
    if !AtMost(beta, Fin(v)) {
      var k :| 0 <= k < |vals| && vals[k] <= v;
      assert V <= vals[k];
    }
    if !AtMost(Fin(v), alpha) {
      var k :| 0 <= k < |vals| && vals[k] == V;
      assert v <= vals[k];
    }
  }

  /** A loop that stops after its first step, pruning the rest, is sound. */
  lemma MaxSoundPruned(m: Pos, s: int, vals: seq<int>, alpha: Bound, beta: Bound)
    requires vals != [] && !AtMost(beta, alpha) && AtMost(beta, MaxB(alpha, s))
    requires !AtMost(Fin(s), alpha) ==> s <= vals[0]
    ensures MaxSound([Step(m, s)], vals, alpha, beta)
  {
    assert FirstAbove([Step(m, s)], 0);
  }

  /** The mirror image of MaxSoundPruned. */
  lemma MinSoundPruned(m: Pos, s: int, vals: seq<int>, alpha: Bound, beta: Bound)
    requires vals != [] && !AtMost(beta, alpha) && AtMost(MinB(beta, s), alpha)
    requires !AtMost(beta, Fin(s)) ==> vals[0] <= s
    ensures MinSound([Step(m, s)], vals, alpha, beta)
  {
    assert FirstBelow([Step(m, s)], 0);
  }

  /** The score the loop gets for its first move bounds that move's value as SearchAgrees says. */
  lemma FirstStepAgrees(g: Grid, moves: seq<Pos>, depth: nat, alpha: Bound, beta: Bound, isMax: bool,
                        bot: Player, opp: Player)
    requires IsGrid(g) && depth > 0 && !AtMost(beta, alpha) && moves != []
    requires forall k :: 0 <= k < |moves| ==> InBounds(moves[k])
    ensures var s := ScoreAfter(g, moves[0], depth, alpha, beta, isMax, bot, opp);
      var v := ChildValues(g, moves, depth, isMax, bot, opp)[0];
      (!AtMost(Fin(s), alpha) ==> s <= v) && (!AtMost(beta, Fin(s)) ==> v <= s)
    decreases depth, 0
  {
    SearchAgrees(Set(g, moves[0], Mover(isMax, bot, opp)), depth - 1, alpha, beta, !isMax, bot, opp);
  }

  /** The loop at a node of the bot is sound against the child values. */
  lemma {:induction false} ExploreMaxAgrees(g: Grid, moves: seq<Pos>, depth: nat, alpha: Bound, beta: Bound,
                                            bot: Player, opp: Player)
    requires IsGrid(g) && depth > 0 && !AtMost(beta, alpha)
    requires forall k :: 0 <= k < |moves| ==> InBounds(moves[k])
    ensures MaxSound(Explore(g, moves, depth, alpha, beta, true, bot, opp), ChildValues(g, moves, depth, true, bot, opp), alpha, beta)
    decreases depth, 1, |moves|
  {
    if moves != [] {
      var vals := ChildValues(g, moves, depth, true, bot, opp);
      ExploreUnfold(g, moves, depth, alpha, beta, true, bot, opp);
      var s := ScoreAfter(g, moves[0], depth, alpha, beta, true, bot, opp);
      FirstStepAgrees(g, moves, depth, alpha, beta, true, bot, opp);
      var alpha' := MaxB(alpha, s);
      if AtMost(beta, alpha') {
        MaxSoundPruned(moves[0], s, vals, alpha, beta);
      } else {
        ExploreMaxAgrees(g, moves[1..], depth, alpha', beta, bot, opp);
        ChildValuesTail(g, moves, depth, true, bot, opp);
        MaxSoundCons(moves[0], s, Explore(g, moves[1..], depth, alpha', beta, true, bot, opp), vals, alpha, beta);
      }
    }
  }

  /** The loop at a node of the opponent is sound against the child values. */
  lemma {:induction false} ExploreMinAgrees(g: Grid, moves: seq<Pos>, depth: nat, alpha: Bound, beta: Bound,
                                            bot: Player, opp: Player)
    requires IsGrid(g) && depth > 0 && !AtMost(beta, alpha)
    requires forall k :: 0 <= k < |moves| ==> InBounds(moves[k])
    ensures MinSound(Explore(g, moves, depth, alpha, beta, false, bot, opp), ChildValues(g, moves, depth, false, bot, opp), alpha, beta)
    decreases depth, 1, |moves|
  {
    if moves != [] {
      var vals := ChildValues(g, moves, depth, false, bot, opp);
      ExploreUnfold(g, moves, depth, alpha, beta, false, bot, opp);
      var s := ScoreAfter(g, moves[0], depth, alpha, beta, false, bot, opp);
      FirstStepAgrees(g, moves, depth, alpha, beta, false, bot, opp);
      var beta' := MinB(beta, s);
      if AtMost(beta', alpha) {
        MinSoundPruned(moves[0], s, vals, alpha, beta);
      } else {
        ExploreMinAgrees(g, moves[1..], depth, alpha, beta', bot, opp);
        ChildValuesTail(g, moves, depth, false, bot, opp);
        MinSoundCons(moves[0], s, Explore(g, moves[1..], depth, alpha, beta', false, bot, opp), vals, alpha, beta);
      }
    }
  }

  /** With the window getBestMove opens, (-Infinity, Infinity), the search returns exactly
      the minimax value: pruning changes which moves are looked at, never the score. */
  lemma SearchIsMinimax(g: Grid, depth: nat, isMax: bool, bot: Player, opp: Player)
    requires IsGrid(g)
    ensures Search(g, depth, NegInf, PosInf, isMax, bot, opp).score == Value(g, depth, isMax, bot, opp)
  {
    SearchAgrees(g, depth, NegInf, PosInf, isMax, bot, opp);
  }

  /** The first of the ties for `v` is the first explored step that scored `v`. */
  lemma {:induction false} TiesFirst(trace: seq<Step>, v: int)
    requires Ties(trace, v) != []
    ensures exists k :: (0 <= k < |trace| && trace[k] == Step(Ties(trace, v)[0], v) &&
      forall j :: 0 <= j < k ==> trace[j].score != v)
  {
    var init := trace[..|trace| - 1];
    if Ties(init, v) != [] {
      TiesFirst(init, v);
      var k :| 0 <= k < |init| && init[k] == Step(Ties(init, v)[0], v) &&
        forall j :: 0 <= j < k ==> init[j].score != v;
      assert trace[k] == init[k];
      forall j | 0 <= j < k ensures trace[j].score != v {
        assert trace[j] == init[j];
      }
    } else {
      forall j | 0 <= j < |init| ensures trace[j].score != v {
        assert trace[j] == init[j];
        TiesSpec(init, v, init[j].move);
      }
    }
  }

  /** In a sound loop of the bot under the full window, the first tie for the best score
      reaches that score with its child value. */
  lemma FirstTieReaches(trace: seq<Step>, vals: seq<int>)
    requires trace != [] && |trace| <= |vals| && MaxSound(trace, vals, NegInf, PosInf)
    ensures Ties(trace, Best(trace, true)) != []
    ensures exists k :: (0 <= k < |trace| && trace[k].move == Ties(trace, Best(trace, true))[0] &&
      Best(trace, true) <= vals[k])
  {
    var v := Best(trace, true);
    TiesOfBestNonEmpty(trace, true);
    BestSpec(trace, true);
    TiesFirst(trace, v);
    var k :| 0 <= k < |trace| && trace[k] == Step(Ties(trace, v)[0], v) &&
      forall j :: 0 <= j < k ==> trace[j].score != v;
    assert FirstAbove(trace, k);
  }

  /** Under the full window the first tie of the loop of the bot is one of `moves` whose
      child value reaches the best score. */
  lemma ExploreFirstTie(g: Grid, moves: seq<Pos>, depth: nat, bot: Player, opp: Player)
    requires IsGrid(g) && depth > 0 && moves != []
    requires forall k :: 0 <= k < |moves| ==> InBounds(moves[k])
    ensures var trace := Explore(g, moves, depth, NegInf, PosInf, true, bot, opp);
      Ties(trace, Best(trace, true)) != [] &&
      exists k :: (0 <= k < |moves| && moves[k] == Ties(trace, Best(trace, true))[0] &&
        Best(trace, true) <= ChildValues(g, moves, depth, true, bot, opp)[k])
  {
    var trace := Explore(g, moves, depth, NegInf, PosInf, true, bot, opp);
    var vals := ChildValues(g, moves, depth, true, bot, opp);
    ExploreMaxAgrees(g, moves, depth, NegInf, PosInf, bot, opp);
    FirstTieReaches(trace, vals);
    var k :| 0 <= k < |trace| && trace[k].move == Ties(trace, Best(trace, true))[0] && Best(trace, true) <= vals[k];
    ExploreFollowsMoves(g, moves, depth, NegInf, PosInf, true, bot, opp);
    assert moves[k] == trace[k].move;
  }

  /** At the root, with the window getBestMove opens, the first of the tied moves minimax
      returns is a best move by plain minimax. A later tie may have been cut off at its own
      alpha, so its score is only an upper bound of its value. */
  lemma RootFirstTie(g: Grid, depth: nat, bot: Player, opp: Player)
    requires IsGrid(g) && !IsLeaf(g, depth, bot, opp)
    ensures var ties := Search(g, depth, NegInf, PosInf, true, bot, opp).ties;
      ties != [] && InBounds(ties[0]) && At(g, ties[0]) == Empty &&
      ChildValue(g, ties[0], depth, true, bot, opp) == Value(g, depth, true, bot, opp)
  {
    SearchCases(g, depth, NegInf, PosInf, true, bot, opp);
    SearchIsMinimax(g, depth, true, bot, opp);
    FullIffNoMoves(g);
    var moves := OrderedMoves(g, true, bot, opp);
    var trace := Explore(g, moves, depth, NegInf, PosInf, true, bot, opp);
    var vals := ChildValues(g, moves, depth, true, bot, opp);
    ExploreFirstTie(g, moves, depth, bot, opp);
    var k :| 0 <= k < |moves| && moves[k] == Ties(trace, Best(trace, true))[0] && Best(trace, true) <= vals[k];
    assert InBounds(moves[k]) && At(g, moves[k]) == Empty;
    assert vals[k] == ChildValue(g, moves[k], depth, true, bot, opp);
    OrderedValueBounds(g, depth, true, bot, opp);
    assert vals[k] <= Value(g, depth, true, bot, opp);
  }

  /** No move minimax returns at the root is better than the minimax value. */
  lemma RootTiesBounded(g: Grid, depth: nat, bot: Player, opp: Player)
    requires IsGrid(g) && !IsLeaf(g, depth, bot, opp)
    ensures forall m :: m in Search(g, depth, NegInf, PosInf, true, bot, opp).ties ==>
      InBounds(m) && At(g, m) == Empty && ChildValue(g, m, depth, true, bot, opp) <= Value(g, depth, true, bot, opp)
  {
    SearchTies(g, depth, NegInf, PosInf, true, bot, opp);
    ValueSpec(g, depth, true, bot, opp);
  }

  /** Why the later ties at the root are only bounded: a minimizing node searched with
      alpha = v whose first reply scores exactly v returns v, above its exact value when some
      other reply is worth less. The root then counts the move leading to it as a tie. */
  lemma PrunedNodeOverstates(g: Grid, depth: nat, v: int, m: Pos, bot: Player, opp: Player)
    requires IsGrid(g) && !IsLeaf(g, depth, bot, opp) && OrderedMoves(g, false, bot, opp) != []
    requires ScoreAfter(g, OrderedMoves(g, false, bot, opp)[0], depth, Fin(v), PosInf, false, bot, opp) == v
    requires InBounds(m) && At(g, m) == Empty && ChildValue(g, m, depth, false, bot, opp) < v
    ensures Search(g, depth, Fin(v), PosInf, false, bot, opp).score == v
    ensures Value(g, depth, false, bot, opp) < v
  {
    MinNodeStopsAtAlpha(g, depth, v, bot, opp);
    ValueSpec(g, depth, false, bot, opp);
  }
}
