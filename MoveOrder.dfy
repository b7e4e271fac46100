/**
 * Move ordering in bot/tatetiminimax.js: evaluateMove, and the stable sort of
 * the available moves by descending evaluateMove score that minimax performs
 * before exploring them.
 */
module MoveOrder {
  import opened Board
  import opened Heuristic

  /** The value evaluateMove computes: the board scored for the bot after `sym` is placed at `m`. */
  function MoveScore(g: Grid, m: Pos, sym: Player, bot: Player, opp: Player): int
    requires IsGrid(g) && InBounds(m)
  {
    BoardScore(Set(g, m, sym), bot, opp)
  }

  /** A move with its sort key. */
  datatype Scored = Scored(move: Pos, key: int)

  /** Inserts `x` after every element whose key is at least its own. */
  function InsertDesc(x: Scored, s: seq<Scored>): seq<Scored> {
    if s == [] then [x]
    else if s[0].key >= x.key then [s[0]] + InsertDesc(x, s[1..])
    else [x] + s
  }

  /** A stable sort by descending key: the comparator `scoreB - scoreA` of
      Array.prototype.sort, which is stable. */
  function SortDesc(s: seq<Scored>): seq<Scored> {
    if s == [] then [] else InsertDesc(s[|s| - 1], SortDesc(s[..|s| - 1]))
  }

  predicate SortedDesc(s: seq<Scored>) {
    forall i, j :: 0 <= i < j < |s| ==> s[i].key >= s[j].key
  }

  /** The elements of `s` whose key is `v`, in their order in `s`. */
  function WithKey(s: seq<Scored>, v: int): seq<Scored> {
    if s == [] then [] else (if s[0].key == v then [s[0]] else []) + WithKey(s[1..], v)
  }

  lemma {:induction false} InsertDescPermutation(x: Scored, s: seq<Scored>)
    ensures multiset(InsertDesc(x, s)) == multiset(s) + multiset{x}
  {
    if s != [] && s[0].key >= x.key {
      InsertDescPermutation(x, s[1..]);
      assert s == [s[0]] + s[1..];
    }
  }

  lemma {:induction false} InsertDescSorted(x: Scored, s: seq<Scored>)
    requires SortedDesc(s)
    ensures SortedDesc(InsertDesc(x, s))
  {
    if s != [] && s[0].key >= x.key {
      var r := InsertDesc(x, s[1..]);
      InsertDescSorted(x, s[1..]);
      InsertDescPermutation(x, s[1..]);
      forall j | 0 <= j < |r| ensures s[0].key >= r[j].key {
        assert r[j] in multiset(r);
        if r[j] != x {
          assert r[j] in multiset(s[1..]);
          var k :| 0 <= k < |s[1..]| && s[1..][k] == r[j];
          assert s[k + 1] == r[j];
        }
      }
      assert InsertDesc(x, s) == [s[0]] + r;
    }
  }

  /** The sort yields the same moves, each once. */
  lemma {:induction false} SortDescPermutation(s: seq<Scored>)
    ensures multiset(SortDesc(s)) == multiset(s)
  {
    if s != [] {
      SortDescPermutation(s[..|s| - 1]);
      InsertDescPermutation(s[|s| - 1], SortDesc(s[..|s| - 1]));
      assert s == s[..|s| - 1] + [s[|s| - 1]];
    }
  }

  /** The sort yields descending keys. */
  lemma {:induction false} SortDescSorted(s: seq<Scored>)
    ensures SortedDesc(SortDesc(s))
  {
    if s != [] {
      SortDescSorted(s[..|s| - 1]);
      InsertDescSorted(s[|s| - 1], SortDesc(s[..|s| - 1]));
    }
  }

  lemma {:induction false} WithKeyAppend(a: seq<Scored>, b: seq<Scored>, v: int)
    ensures WithKey(a + b, v) == WithKey(a, v) + WithKey(b, v)
  {
    if a != [] {
      assert (a + b)[1..] == a[1..] + b;
      WithKeyAppend(a[1..], b, v);
    } else {
      assert a + b == b;
    }
  }

  lemma {:induction false} WithKeyNone(s: seq<Scored>, v: int)
    requires forall i :: 0 <= i < |s| ==> s[i].key < v
    ensures WithKey(s, v) == []
  {
    if s != [] {
      WithKeyNone(s[1..], v);
    }
  }

  lemma {:induction false} InsertDescStable(x: Scored, s: seq<Scored>, v: int)
    requires SortedDesc(s)
    ensures WithKey(InsertDesc(x, s), v) == WithKey(s, v) + (if x.key == v then [x] else [])
  {
    if s == [] {
    } else if s[0].key >= x.key {
      InsertDescStable(x, s[1..], v);
    } else {
      WithKeyNone(s, x.key);
      assert [x] + s == [x] + s;
    }
  }

  /** The sort is stable: the moves sharing any one key keep their original order. */
  lemma {:induction false} SortDescStable(s: seq<Scored>, v: int)
    ensures WithKey(SortDesc(s), v) == WithKey(s, v)
  {
    if s != [] {
      var init, last := s[..|s| - 1], s[|s| - 1];
      var tail := if last.key == v then [last] else [];
      assert SortDesc(s) == InsertDesc(last, SortDesc(init));
      SortDescSorted(init);
      InsertDescStable(last, SortDesc(init), v);
      SortDescStable(init, v);
      assert s == init + [last];
      WithKeyAppend(init, [last], v);
      assert WithKey([last], v) == tail;
    }
  }

  /** The moves paired with their evaluateMove scores. */
  function Keyed(g: Grid, moves: seq<Pos>, sym: Player, bot: Player, opp: Player): (s: seq<Scored>)
    requires IsGrid(g) && forall k :: 0 <= k < |moves| ==> InBounds(moves[k])
    ensures |s| == |moves|
  {
    if moves == [] then []
    else
      var m := moves[|moves| - 1];
      Keyed(g, moves[..|moves| - 1], sym, bot, opp) + [Scored(m, MoveScore(g, m, sym, bot, opp))]
  }

  /** Each move is paired with its own evaluateMove score, in the given order. */
  lemma {:induction false} KeyedSpec(g: Grid, moves: seq<Pos>, sym: Player, bot: Player, opp: Player)
    requires IsGrid(g) && forall k :: 0 <= k < |moves| ==> InBounds(moves[k])
    ensures forall k :: 0 <= k < |moves| ==>
      Keyed(g, moves, sym, bot, opp)[k] == Scored(moves[k], MoveScore(g, moves[k], sym, bot, opp))
  {
    if moves != [] {
      KeyedSpec(g, moves[..|moves| - 1], sym, bot, opp);
    }
  }

  function MovesOf(s: seq<Scored>): (moves: seq<Pos>)
    ensures |moves| == |s| && forall k :: 0 <= k < |s| ==> moves[k] == s[k].move
  {
    seq(|s|, k requires 0 <= k < |s| => s[k].move)
  }

  /** The order in which minimax explores `moves`: by descending evaluateMove score, ties in the given order. */
  function Ordered(g: Grid, moves: seq<Pos>, sym: Player, bot: Player, opp: Player): (r: seq<Pos>)
    requires IsGrid(g) && forall k :: 0 <= k < |moves| ==> InBounds(moves[k])
    ensures multiset(r) == multiset(moves)
    ensures |r| == |moves| && forall k :: 0 <= k < |r| ==> r[k] in moves
  {
    var keyed := Keyed(g, moves, sym, bot, opp);
    SortDescMoves(keyed);
    KeyedSpec(g, moves, sym, bot, opp);
    assert MovesOf(keyed) == moves;
    var r := MovesOf(SortDesc(keyed));
    SameMembers(r, moves);
    r
  }

  lemma SameMembers(a: seq<Pos>, b: seq<Pos>)
    requires multiset(a) == multiset(b)
    ensures |a| == |b| && forall k :: 0 <= k < |a| ==> a[k] in b
  {
    assert |a| == |multiset(a)| == |b|;
    forall k | 0 <= k < |a| ensures a[k] in b {
      assert a[k] in multiset(b);
    }
  }

  /** Ordering puts higher evaluateMove scores first. */
  lemma OrderedDescending(g: Grid, moves: seq<Pos>, sym: Player, bot: Player, opp: Player)
    requires IsGrid(g) && forall k :: 0 <= k < |moves| ==> InBounds(moves[k])
    ensures var r := Ordered(g, moves, sym, bot, opp);
      forall i, j :: 0 <= i < j < |r| ==> MoveScore(g, r[i], sym, bot, opp) >= MoveScore(g, r[j], sym, bot, opp)
  {
    var keyed := Keyed(g, moves, sym, bot, opp);
    var sorted := SortDesc(keyed);
    SortDescSorted(keyed);
    SortDescPermutation(keyed);
    KeyedSpec(g, moves, sym, bot, opp);
    forall i | 0 <= i < |sorted|
      ensures InBounds(sorted[i].move) && sorted[i].key == MoveScore(g, sorted[i].move, sym, bot, opp)
    {
      assert sorted[i] in multiset(keyed);
      var j :| 0 <= j < |keyed| && keyed[j] == sorted[i];
    }
  }

  lemma {:induction false} InsertDescMoves(x: Scored, s: seq<Scored>)
    ensures multiset(MovesOf(InsertDesc(x, s))) == multiset(MovesOf(s)) + multiset{x.move}
  {
    if s == [] {
      assert MovesOf([x]) == [x.move];
    } else if s[0].key >= x.key {
      InsertDescMoves(x, s[1..]);
      assert MovesOf(InsertDesc(x, s)) == [s[0].move] + MovesOf(InsertDesc(x, s[1..]));
      assert MovesOf(s) == [s[0].move] + MovesOf(s[1..]);
    } else {
      assert MovesOf([x] + s) == [x.move] + MovesOf(s);
    }
  }

  /** Sorting the scored moves permutes the bare moves. */
  lemma {:induction false} SortDescMoves(s: seq<Scored>)
    ensures multiset(MovesOf(SortDesc(s))) == multiset(MovesOf(s))
  {
    if s != [] {
      var init, last := s[..|s| - 1], s[|s| - 1];
      SortDescMoves(init);
      InsertDescMoves(last, SortDesc(init));
      assert MovesOf(s) == MovesOf(init) + [last.move];
    }
  }

  /** evaluateMove: places `sym` at `m`, scores the board for the bot, and clears the cell again. */
  method EvaluateMove(board: array2<Cell>, m: Pos, sym: Player, bot: Player, opp: Player) returns (score: int)
    requires HasBoardShape(board) && InBounds(m)
    modifies board
    ensures score == MoveScore(old(Snap(board)), m, sym, bot, opp)
    ensures Snap(board) == Set(old(Snap(board)), m, Empty)
  {
    ghost var g := Snap(board);
    board[m.row, m.col] := sym;
    SnapIs(board, Set(g, m, sym));
    score := EvaluateBoard(board, bot, opp);
    board[m.row, m.col] := Empty;
    SnapIs(board, Set(g, m, Empty));
  }

  /** The sort in minimax: every move scored with evaluateMove for the side to move, then
      stably ordered by descending score. The moves are empty cells, so the board is left as it was. */
  method OrderMoves(board: array2<Cell>, moves: seq<Pos>, sym: Player, bot: Player, opp: Player)
    returns (ordered: seq<Pos>)
    requires HasBoardShape(board)
    requires forall k :: 0 <= k < |moves| ==> InBounds(moves[k]) && board[moves[k].row, moves[k].col] == Empty
    modifies board
    ensures Snap(board) == old(Snap(board))
    ensures ordered == Ordered(old(Snap(board)), moves, sym, bot, opp)
  {
    var keyed := ScoreMoves(board, moves, sym, bot, opp);
    ordered := MovesOf(SortDesc(keyed));
  }

  /** The map of minimax's sort: each move paired with its evaluateMove score. */
  method ScoreMoves(board: array2<Cell>, moves: seq<Pos>, sym: Player, bot: Player, opp: Player)
    returns (keyed: seq<Scored>)
    requires HasBoardShape(board)
    requires forall k :: 0 <= k < |moves| ==> InBounds(moves[k]) && board[moves[k].row, moves[k].col] == Empty
    modifies board
    ensures Snap(board) == old(Snap(board))
    ensures keyed == Keyed(old(Snap(board)), moves, sym, bot, opp)
  {
    ghost var g := Snap(board);
    assert forall k :: 0 <= k < |moves| ==> At(g, moves[k]) == Empty;
    keyed := [];
    for i := 0 to |moves|
      invariant Snap(board) == g
      invariant forall k :: 0 <= k < |moves| ==> At(g, moves[k]) == Empty
      invariant keyed == Keyed(g, moves[..i], sym, bot, opp)
    {
      var score := EvaluateMove(board, moves[i], sym, bot, opp);
      SetSame(g, moves[i]);
      KeyedStep(g, moves, i, sym, bot, opp);
      keyed := keyed + [Scored(moves[i], score)];
    }
    assert moves[..|moves|] == moves;
  }

  lemma KeyedStep(g: Grid, moves: seq<Pos>, i: nat, sym: Player, bot: Player, opp: Player)
    requires IsGrid(g) && i < |moves| && forall k :: 0 <= k < |moves| ==> InBounds(moves[k])
    ensures Keyed(g, moves[..i + 1], sym, bot, opp)
         == Keyed(g, moves[..i], sym, bot, opp) + [Scored(moves[i], MoveScore(g, moves[i], sym, bot, opp))]
  {
    assert moves[..i + 1][..i] == moves[..i];
  }
}
