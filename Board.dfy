/**
 * The 5x5 board of the engine in bot/tatetiminimax.js: cells, moves, the
 * pure grid view of the mutable board, and the scans for empty cells
 * (getAvailableMoves, getFirstAvailableMove, isBoardFull).
 */
module Board {
  import opened Wrappers

  const BoardSize := 5
  const WinLength := 4

  /** A cell holds '', 'X' or 'O'. */
  datatype Cell = Empty | X | O

  /** A side of the game: a non-empty symbol. */
  type Player = c: Cell | c != Empty witness X

  function Opponent(p: Player): (q: Player)
    ensures q != p
  {
    if p == X then O else X
  }

  /** A move `{row, col}`. */
  datatype Pos = Pos(row: int, col: int)

  predicate InBounds(m: Pos) {
    0 <= m.row < BoardSize && 0 <= m.col < BoardSize
  }

  /** Row-major position of a cell: the order in which the engine scans the board. */
  function Index(m: Pos): int {
    BoardSize * m.row + m.col
  }

  /** The value of a board: 5 rows of 5 cells. */
  type Grid = seq<seq<Cell>>

  predicate IsGrid(g: Grid) {
    |g| == BoardSize && forall r :: 0 <= r < BoardSize ==> |g[r]| == BoardSize
  }

  function At(g: Grid, m: Pos): Cell
    requires IsGrid(g) && InBounds(m)
  {
    g[m.row][m.col]
  }

  /** The board with one cell overwritten, as `board[row][col] = v` does. */
  function Set(g: Grid, m: Pos, v: Cell): (h: Grid)
    requires IsGrid(g) && InBounds(m)
    ensures IsGrid(h)
    ensures forall r, c :: 0 <= r < BoardSize && 0 <= c < BoardSize ==>
      h[r][c] == if r == m.row && c == m.col then v else g[r][c]
  {
    g[m.row := g[m.row][m.col := v]]
  }

  lemma GridExt(g: Grid, h: Grid)
    requires IsGrid(g) && IsGrid(h)
    requires forall r, c :: 0 <= r < BoardSize && 0 <= c < BoardSize ==> g[r][c] == h[r][c]
    ensures g == h
  {
    forall r | 0 <= r < BoardSize ensures g[r] == h[r] {
    }
  }

  /** Writing back the value a cell held leaves the board as it was. */
  lemma SetSame(g: Grid, m: Pos)
    requires IsGrid(g) && InBounds(m)
    ensures Set(g, m, At(g, m)) == g
  {
    GridExt(Set(g, m, At(g, m)), g);
  }

  predicate HasBoardShape(b: array2<Cell>) {
    b.Length0 == BoardSize && b.Length1 == BoardSize
  }

  /** The current contents of the mutable board. */
  function Snap(b: array2<Cell>): (g: Grid)
    requires HasBoardShape(b)
    reads b
    ensures IsGrid(g)
    ensures forall r, c :: 0 <= r < BoardSize && 0 <= c < BoardSize ==> g[r][c] == b[r, c]
  {
    seq(BoardSize, r requires 0 <= r < BoardSize reads b =>
      seq(BoardSize, c requires 0 <= c < BoardSize reads b => b[r, c]))
  }

  lemma SnapIs(b: array2<Cell>, g: Grid)
    requires HasBoardShape(b) && IsGrid(g)
    requires forall r, c :: 0 <= r < BoardSize && 0 <= c < BoardSize ==> b[r, c] == g[r][c]
    ensures Snap(b) == g
  {
    GridExt(Snap(b), g);
  }

  /** isBoardFull: no cell is ''. */
  predicate IsFull(g: Grid)
    requires IsGrid(g)
  {
    forall r, c :: 0 <= r < BoardSize && 0 <= c < BoardSize ==> g[r][c] != Empty
  }

  /** The empty cells among the first `n` cells of row `row`, left to right. */
  function EmptyInRow(g: Grid, row: int, n: nat): seq<Pos>
    requires IsGrid(g) && 0 <= row < BoardSize && n <= BoardSize
  {
    if n == 0 then []
    else EmptyInRow(g, row, n - 1) + (if g[row][n - 1] == Empty then [Pos(row, n - 1)] else [])
  }

  /** The empty cells of the first `n` rows, row by row. */
  function EmptyInRows(g: Grid, n: nat): seq<Pos>
    requires IsGrid(g) && n <= BoardSize
  {
    if n == 0 then [] else EmptyInRows(g, n - 1) + EmptyInRow(g, n - 1, BoardSize)
  }

  /** The moves getAvailableMoves lists: every empty cell, row by row. */
  function AvailableMoves(g: Grid): seq<Pos>
    requires IsGrid(g)
  {
    EmptyInRows(g, BoardSize)
  }

  /** The fallback of getFirstAvailableMove: the first empty cell in row-major order. */
  function FirstAvailable(g: Grid): Option<Pos>
    requires IsGrid(g)
  {
    var moves := AvailableMoves(g);
    if moves == [] then None else Some(moves[0])
  }

  /** Positions in strictly increasing row-major order. */
  predicate RowMajor(s: seq<Pos>) {
    forall i, j :: 0 <= i < j < |s| ==> Index(s[i]) < Index(s[j])
  }

  lemma {:induction false} EmptyInRowMembers(g: Grid, row: int, n: nat, m: Pos)
    requires IsGrid(g) && 0 <= row < BoardSize && n <= BoardSize
    ensures m in EmptyInRow(g, row, n) <==> m.row == row && 0 <= m.col < n && g[row][m.col] == Empty
  {
    if n > 0 {
      EmptyInRowMembers(g, row, n - 1, m);
    }
  }

  lemma {:induction false} EmptyInRowsMembers(g: Grid, n: nat, m: Pos)
    requires IsGrid(g) && n <= BoardSize
    ensures m in EmptyInRows(g, n) <==> InBounds(m) && m.row < n && At(g, m) == Empty
  {
    if n > 0 {
      EmptyInRowsMembers(g, n - 1, m);
      EmptyInRowMembers(g, n - 1, BoardSize, m);
    }
  }

  lemma {:induction false} EmptyInRowOrdered(g: Grid, row: int, n: nat)
    requires IsGrid(g) && 0 <= row < BoardSize && n <= BoardSize
    ensures forall i :: 0 <= i < |EmptyInRow(g, row, n)| ==>
      EmptyInRow(g, row, n)[i].row == row && 0 <= EmptyInRow(g, row, n)[i].col < n
    ensures RowMajor(EmptyInRow(g, row, n))
  {
    if n > 0 {
      EmptyInRowOrdered(g, row, n - 1);
    }
  }

  lemma {:induction false} EmptyInRowsOrdered(g: Grid, n: nat)
    requires IsGrid(g) && n <= BoardSize
    ensures forall i :: 0 <= i < |EmptyInRows(g, n)| ==>
      InBounds(EmptyInRows(g, n)[i]) && EmptyInRows(g, n)[i].row < n
    ensures RowMajor(EmptyInRows(g, n))
  {
    if n > 0 {
      var a, b := EmptyInRows(g, n - 1), EmptyInRow(g, n - 1, BoardSize);
      EmptyInRowsOrdered(g, n - 1);
      EmptyInRowOrdered(g, n - 1, BoardSize);
      assert forall i :: |a| <= i < |a + b| ==> (a + b)[i] == b[i - |a|];
    }
  }

  lemma {:induction false} EmptyInRowPrefix(g: Grid, row: int, n: nat, k: nat)
    requires IsGrid(g) && 0 <= row < BoardSize && n <= k <= BoardSize
    ensures EmptyInRow(g, row, n) <= EmptyInRow(g, row, k)
  {
    if n < k {
      EmptyInRowPrefix(g, row, n, k - 1);
    }
  }

  lemma {:induction false} EmptyInRowsPrefix(g: Grid, n: nat, k: nat)
    requires IsGrid(g) && n <= k <= BoardSize
    ensures EmptyInRows(g, n) <= EmptyInRows(g, k)
  {
    if n < k {
      EmptyInRowsPrefix(g, n, k - 1);
    }
  }

  /** An empty cell earlier in row-major order than the k-th available move is listed before it. */
  lemma AvailableBefore(g: Grid, k: int, m: Pos)
    requires IsGrid(g) && 0 <= k < |AvailableMoves(g)|
    requires InBounds(m) && At(g, m) == Empty && Index(m) < Index(AvailableMoves(g)[k])
    ensures exists j :: 0 <= j < k && AvailableMoves(g)[j] == m
  {
    var moves := AvailableMoves(g);
    EmptyInRowsMembers(g, BoardSize, m);
    EmptyInRowsOrdered(g, BoardSize);
    var j :| 0 <= j < |moves| && moves[j] == m;
    assert j < k;
  }

  /** getAvailableMoves lists exactly the empty cells, each once, in row-major order. */
  lemma AvailableMovesSpec(g: Grid)
    requires IsGrid(g)
    ensures forall m :: m in AvailableMoves(g) <==> InBounds(m) && At(g, m) == Empty
    ensures forall i, j :: 0 <= i < j < |AvailableMoves(g)| ==>
      Index(AvailableMoves(g)[i]) < Index(AvailableMoves(g)[j])
  {
    forall m ensures m in AvailableMoves(g) <==> InBounds(m) && At(g, m) == Empty {
      EmptyInRowsMembers(g, BoardSize, m);
    }
    EmptyInRowsOrdered(g, BoardSize);
  }

  /** Every listed move is an empty cell of the board. */
  lemma AvailableMovesAreEmpty(g: Grid)
    requires IsGrid(g)
    ensures forall i :: 0 <= i < |AvailableMoves(g)| ==>
      InBounds(AvailableMoves(g)[i]) && At(g, AvailableMoves(g)[i]) == Empty
  {
    AvailableMovesSpec(g);
  }

  /** isBoardFull holds exactly when getAvailableMoves finds nothing. */
  lemma FullIffNoMoves(g: Grid)
    requires IsGrid(g)
    ensures IsFull(g) <==> AvailableMoves(g) == []
  {
    AvailableMovesSpec(g);
    if !IsFull(g) {
      var r, c :| 0 <= r < BoardSize && 0 <= c < BoardSize && g[r][c] == Empty;
      assert Pos(r, c) in AvailableMoves(g);
    }
    if AvailableMoves(g) != [] {
      assert AvailableMoves(g)[0] in AvailableMoves(g);
    }
  }

  /** The fallback returns an empty cell, the one earliest in row-major order, and
      returns nothing only on a full board. */
  lemma FirstAvailableSpec(g: Grid)
    requires IsGrid(g)
    ensures FirstAvailable(g).None? <==> IsFull(g)
    ensures FirstAvailable(g).Some? ==>
      var m := FirstAvailable(g).value;
      InBounds(m) && At(g, m) == Empty &&
      forall r, c :: 0 <= r < BoardSize && 0 <= c < BoardSize && Index(Pos(r, c)) < Index(m) ==> g[r][c] != Empty
  {
    FullIffNoMoves(g);
    AvailableMovesSpec(g);
    if FirstAvailable(g).Some? {
      var m := FirstAvailable(g).value;
      forall r, c | 0 <= r < BoardSize && 0 <= c < BoardSize && g[r][c] == Empty
        ensures Index(m) <= Index(Pos(r, c))
      {
        assert Pos(r, c) in AvailableMoves(g);
        var i :| 0 <= i < |AvailableMoves(g)| && AvailableMoves(g)[i] == Pos(r, c);
      }
    }
  }

  /** A scan that meets its first empty cell at (row, col) has found the fallback move. */
  lemma FirstAvailableFound(g: Grid, row: int, col: int)
    requires IsGrid(g) && 0 <= row < BoardSize && 0 <= col < BoardSize
    requires EmptyInRows(g, row) == [] && EmptyInRow(g, row, col) == [] && g[row][col] == Empty
    ensures FirstAvailable(g) == Some(Pos(row, col))
  {
    EmptyInRowPrefix(g, row, col + 1, BoardSize);
    EmptyInRowsPrefix(g, row + 1, BoardSize);
    assert EmptyInRows(g, row + 1) == EmptyInRow(g, row, BoardSize);
  }

  /** getAvailableMoves: two nested loops pushing every '' cell. */
  method GetAvailableMoves(board: array2<Cell>) returns (moves: seq<Pos>)
    requires HasBoardShape(board)
    ensures moves == AvailableMoves(Snap(board))
  {
    ghost var g := Snap(board);
    moves := [];
    var row := 0;
    while row < BoardSize
      invariant 0 <= row <= BoardSize
      invariant moves == EmptyInRows(g, row)
    {
      ghost var before := moves;
      var col := 0;
      while col < BoardSize
        invariant 0 <= col <= BoardSize
        invariant moves == before + EmptyInRow(g, row, col)
      {
        if board[row, col] == Empty {
          moves := moves + [Pos(row, col)];
        }
        col := col + 1;
      }
      row := row + 1;
    }
  }

  /** getFirstAvailableMove: the same scan, returning at the first '' cell. */
  method GetFirstAvailableMove(board: array2<Cell>) returns (move: Option<Pos>)
    requires HasBoardShape(board)
    ensures move == FirstAvailable(Snap(board))
  {
    ghost var g := Snap(board);
    var row := 0;
    while row < BoardSize
      invariant 0 <= row <= BoardSize
      invariant EmptyInRows(g, row) == []
    {
      var col := 0;
      while col < BoardSize
        invariant 0 <= col <= BoardSize
        invariant EmptyInRow(g, row, col) == []
      {
        if board[row, col] == Empty {
          FirstAvailableFound(g, row, col);
          return Some(Pos(row, col));
        }
        col := col + 1;
      }
      row := row + 1;
    }
    return None;
  }
}
