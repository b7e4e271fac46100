/**
 * The line catalogue (getAllLines) and the win detector (checkWinner) of
 * bot/tatetiminimax.js.
 */
module LineCatalog {
  import opened Wrappers
  import opened Board

  /** Number of starting offsets of a window along one row or column. */
  const Span := 2  // BoardSize - WinLength + 1

  /** Number of windows getAllLines produces. */
  const LineCount := 28  // 2 * BoardSize * Span + 2 * Span * Span

  /** The four directions a line can run in; "↘" is Diagonal, "↙" is AntiDiagonal. */
  datatype Direction = Horizontal | Vertical | Diagonal | AntiDiagonal

  /** A window of WinLength cells: its first cell and its direction. */
  datatype Window = Window(row: int, col: int, dir: Direction)

  /** The i-th cell of a window. */
  function CellOf(w: Window, i: int): Pos {
    match w.dir
    case Horizontal => Pos(w.row, w.col + i)
    case Vertical => Pos(w.row + i, w.col)
    case Diagonal => Pos(w.row + i, w.col + i)
    case AntiDiagonal => Pos(w.row + i, w.col - i)
  }

  /** Every cell of the window lies on the board. */
  predicate OnBoard(w: Window) {
    forall i :: 0 <= i < WinLength ==> InBounds(CellOf(w, i))
  }

  /** Rows outer, columns inner. */
  function Horizontals(): seq<Window> {
    seq(BoardSize * Span, k => Window(k / Span, k % Span, Horizontal))
  }

  /** Columns outer, rows inner. */
  function Verticals(): seq<Window> {
    seq(BoardSize * Span, k => Window(k % Span, k / Span, Vertical))
  }

  function Diagonals(): seq<Window> {
    seq(Span * Span, k => Window(k / Span, k % Span, Diagonal))
  }

  /** Starting columns run from WinLength - 1 to the last column. */
  function AntiDiagonals(): seq<Window> {
    seq(Span * Span, k => Window(k / Span, WinLength - 1 + k % Span, AntiDiagonal))
  }

  /** The windows of getAllLines, in the order it pushes them. */
  function Catalogue(): seq<Window> {
    Horizontals() + Verticals() + Diagonals() + AntiDiagonals()
  }

  /** The catalogue has 28 windows: 10 horizontal, then 10 vertical, then 4 "↘",
      then 4 "↙", each lying wholly on the board. */
  lemma CatalogueShape()
    ensures |Catalogue()| == LineCount == 28
    ensures forall k :: 0 <= k < 10 ==> Catalogue()[k].dir == Horizontal
    ensures forall k :: 10 <= k < 20 ==> Catalogue()[k].dir == Vertical
    ensures forall k :: 20 <= k < 24 ==> Catalogue()[k].dir == Diagonal
    ensures forall k :: 24 <= k < 28 ==> Catalogue()[k].dir == AntiDiagonal
    ensures forall k :: 0 <= k < |Catalogue()| ==> OnBoard(Catalogue()[k])
  {
  }

  /** The catalogue is complete: a window lies on the board exactly when it is in the catalogue. */
  lemma CatalogueComplete(w: Window)
    ensures w in Catalogue() <==> OnBoard(w)
  {
    CatalogueShape();
    if OnBoard(w) {
      assert InBounds(CellOf(w, 0)) && InBounds(CellOf(w, WinLength - 1));
      match w.dir
      case Horizontal =>
        assert Catalogue()[Span * w.row + w.col] == w;
      case Vertical =>
        assert Catalogue()[BoardSize * Span + Span * w.col + w.row] == w;
      case Diagonal =>
        assert Catalogue()[2 * BoardSize * Span + Span * w.row + w.col] == w;
      case AntiDiagonal =>
        assert Catalogue()[2 * BoardSize * Span + Span * Span + Span * w.row + w.col - (WinLength - 1)] == w;
    }
  }

  /** The cells of one window, read off the board. */
  function LineOf(g: Grid, w: Window): (line: seq<Cell>)
    requires IsGrid(g) && OnBoard(w)
    ensures |line| == WinLength
  {
    [At(g, CellOf(w, 0)), At(g, CellOf(w, 1)), At(g, CellOf(w, 2)), At(g, CellOf(w, 3))]
  }

  /** getAllLines: the contents of every window, in catalogue order. */
  function Lines(g: Grid): (lines: seq<seq<Cell>>)
    requires IsGrid(g)
    ensures |lines| == LineCount
    ensures forall k :: 0 <= k < |lines| ==> |lines[k]| == WinLength
  {
    CatalogueShape();
    seq(|Catalogue()|, k requires 0 <= k < |Catalogue()| => LineOf(g, Catalogue()[k]))
  }

  lemma HorizontalLine(g: Grid, row: int, col: int)
    requires IsGrid(g) && 0 <= row < BoardSize && 0 <= col < Span
    ensures Lines(g)[Span * row + col] == [g[row][col], g[row][col + 1], g[row][col + 2], g[row][col + 3]]
  {
    assert Catalogue()[Span * row + col] == Window(row, col, Horizontal);
  }

  lemma VerticalLine(g: Grid, row: int, col: int)
    requires IsGrid(g) && 0 <= row < Span && 0 <= col < BoardSize
    ensures Lines(g)[BoardSize * Span + Span * col + row] == [g[row][col], g[row + 1][col], g[row + 2][col], g[row + 3][col]]
  {
    assert Catalogue()[BoardSize * Span + Span * col + row] == Window(row, col, Vertical);
  }

  lemma DiagonalLine(g: Grid, row: int, col: int)
    requires IsGrid(g) && 0 <= row < Span && 0 <= col < Span
    ensures Lines(g)[2 * BoardSize * Span + Span * row + col]
         == [g[row][col], g[row + 1][col + 1], g[row + 2][col + 2], g[row + 3][col + 3]]
  {
    assert Catalogue()[2 * BoardSize * Span + Span * row + col] == Window(row, col, Diagonal);
  }

  lemma AntiDiagonalLine(g: Grid, row: int, col: int)
    requires IsGrid(g) && 0 <= row < Span && WinLength - 1 <= col < BoardSize
    ensures Lines(g)[2 * BoardSize * Span + Span * Span + Span * row + col - (WinLength - 1)]
         == [g[row][col], g[row + 1][col - 1], g[row + 2][col - 2], g[row + 3][col - 3]]
  {
    assert Catalogue()[2 * BoardSize * Span + Span * Span + Span * row + col - (WinLength - 1)]
        == Window(row, col, AntiDiagonal);
  }

  lemma PrefixGrows(all: seq<seq<Cell>>, n: nat, line: seq<Cell>)
    requires n < |all| && all[n] == line
    ensures all[..n] + [line] == all[..n + 1]
  {
  }

  /** getAllLines: four pairs of nested loops, each pushing a 4-cell array;
      each pair is a method of its own below. */
  method GetAllLines(board: array2<Cell>) returns (lines: seq<seq<Cell>>)
    requires HasBoardShape(board)
    ensures lines == Lines(Snap(board))
  {
    lines := PushHorizontals(board, []);
    lines := PushVerticals(board, lines);
    lines := PushDiagonals(board, lines);
    lines := PushAntiDiagonals(board, lines);
    assert lines == Lines(Snap(board))[..LineCount];
  }

  method PushHorizontals(board: array2<Cell>, start: seq<seq<Cell>>) returns (lines: seq<seq<Cell>>)
    requires HasBoardShape(board)
    requires start == Lines(Snap(board))[..0]
    ensures lines == Lines(Snap(board))[..BoardSize * Span]
  {
    ghost var g := Snap(board);
    ghost var all := Lines(g);
    lines := start;
    var row := 0;
    while row < BoardSize
      invariant 0 <= row <= BoardSize
      invariant lines == all[..Span * row]
    {
      var col := 0;
      while col <= BoardSize - WinLength
        invariant 0 <= col <= Span
        invariant lines == all[..Span * row + col]
      {
        var line := [board[row, col], board[row, col + 1], board[row, col + 2], board[row, col + 3]];
        HorizontalLine(g, row, col);
        PrefixGrows(all, Span * row + col, line);
        lines := lines + [line];
        col := col + 1;
      }
      row := row + 1;
    }
  }

  method PushVerticals(board: array2<Cell>, start: seq<seq<Cell>>) returns (lines: seq<seq<Cell>>)
    requires HasBoardShape(board)
    requires start == Lines(Snap(board))[..BoardSize * Span]
    ensures lines == Lines(Snap(board))[..2 * BoardSize * Span]
  {
    ghost var g := Snap(board);
    ghost var all := Lines(g);
    lines := start;
    var col := 0;
    while col < BoardSize
      invariant 0 <= col <= BoardSize
      invariant lines == all[..BoardSize * Span + Span * col]
    {
      var row := 0;
      while row <= BoardSize - WinLength
        invariant 0 <= row <= Span
        invariant lines == all[..BoardSize * Span + Span * col + row]
      {
        var line := [board[row, col], board[row + 1, col], board[row + 2, col], board[row + 3, col]];
        VerticalLine(g, row, col);
        PrefixGrows(all, BoardSize * Span + Span * col + row, line);
        lines := lines + [line];
        row := row + 1;
      }
      col := col + 1;
    }
  }

  method PushDiagonals(board: array2<Cell>, start: seq<seq<Cell>>) returns (lines: seq<seq<Cell>>)
    requires HasBoardShape(board)
    requires start == Lines(Snap(board))[..2 * BoardSize * Span]
    ensures lines == Lines(Snap(board))[..2 * BoardSize * Span + Span * Span]
  {
    ghost var g := Snap(board);
    ghost var all := Lines(g);
    lines := start;
    var row := 0;
    while row <= BoardSize - WinLength
      invariant 0 <= row <= Span
      invariant lines == all[..2 * BoardSize * Span + Span * row]
    {
      var col := 0;
      while col <= BoardSize - WinLength
        invariant 0 <= col <= Span
        invariant lines == all[..2 * BoardSize * Span + Span * row + col]
      {
        var line := [board[row, col], board[row + 1, col + 1], board[row + 2, col + 2], board[row + 3, col + 3]];
        DiagonalLine(g, row, col);
        PrefixGrows(all, 2 * BoardSize * Span + Span * row + col, line);
        lines := lines + [line];
        col := col + 1;
      }
      row := row + 1;
    }
  }

  method PushAntiDiagonals(board: array2<Cell>, start: seq<seq<Cell>>) returns (lines: seq<seq<Cell>>)
    requires HasBoardShape(board)
    requires start == Lines(Snap(board))[..2 * BoardSize * Span + Span * Span]
    ensures lines == Lines(Snap(board))[..LineCount]
  {
    ghost var g := Snap(board);
    ghost var all := Lines(g);
    lines := start;
    var row := 0;
    while row <= BoardSize - WinLength
      invariant 0 <= row <= Span
      invariant lines == all[..2 * BoardSize * Span + Span * Span + Span * row]
    {
      var col := WinLength - 1;
      while col < BoardSize
        invariant WinLength - 1 <= col <= BoardSize
        invariant lines == all[..2 * BoardSize * Span + Span * Span + Span * row + col - (WinLength - 1)]
      {
        var line := [board[row, col], board[row + 1, col - 1], board[row + 2, col - 2], board[row + 3, col - 3]];
        AntiDiagonalLine(g, row, col);
        PrefixGrows(all, 2 * BoardSize * Span + Span * Span + Span * row + col - (WinLength - 1), line);
        lines := lines + [line];
        col := col + 1;
      }
      row := row + 1;
    }
  }

  predicate AllAre(line: seq<Cell>, p: Cell) {
    forall i :: 0 <= i < |line| ==> line[i] == p
  }

  /** The per-line test of checkWinner: every cell 'X' (resp. 'O') and the first not ''. */
  function LineWinner(line: seq<Cell>): Option<Player>
    requires |line| == WinLength
  {
    if AllAre(line, X) && line[0] != Empty then Some(X)
    else if AllAre(line, O) && line[0] != Empty then Some(O)
    else None
  }

  /** The scan of checkWinner: the verdict of the first line that has one. */
  function FirstWinner(lines: seq<seq<Cell>>): Option<Player>
    requires forall k :: 0 <= k < |lines| ==> |lines[k]| == WinLength
  {
    if lines == [] then None
    else if LineWinner(lines[0]).Some? then LineWinner(lines[0])
    else FirstWinner(lines[1..])
  }

  /** checkWinner. */
  function Winner(g: Grid): Option<Player>
    requires IsGrid(g)
  {
    FirstWinner(Lines(g))
  }

  /** A line is won by a side when its four cells all hold that side's symbol. */
  predicate Uniform(line: seq<Cell>) {
    AllAre(line, X) || AllAre(line, O)
  }

  lemma {:induction false} FirstWinnerSpec(lines: seq<seq<Cell>>)
    requires forall k :: 0 <= k < |lines| ==> |lines[k]| == WinLength
    ensures FirstWinner(lines).None? <==> forall k :: 0 <= k < |lines| ==> !Uniform(lines[k])
    ensures FirstWinner(lines).Some? ==>
      exists k :: 0 <= k < |lines| && AllAre(lines[k], FirstWinner(lines).value) &&
        forall j :: 0 <= j < k ==> !Uniform(lines[j])
  {
    if lines != [] {
      FirstWinnerSpec(lines[1..]);
      if LineWinner(lines[0]).None? {
        assert forall k :: 1 <= k < |lines| ==> lines[k] == lines[1..][k - 1];
        if FirstWinner(lines).Some? {
          var k :| 0 <= k < |lines[1..]| && AllAre(lines[1..][k], FirstWinner(lines).value) &&
            forall j :: 0 <= j < k ==> !Uniform(lines[1..][j]);
          assert AllAre(lines[k + 1], FirstWinner(lines).value);
        }
      } else {
        assert AllAre(lines[0], FirstWinner(lines).value);
      }
    }
  }

  /** checkWinner answers a side only when some window holds four of that side's
      symbol and no earlier window is complete; it answers null exactly when no
      window on the board holds four equal symbols. */
  lemma WinnerSpec(g: Grid)
    requires IsGrid(g)
    ensures Winner(g).None? <==>
      forall w :: OnBoard(w) ==> !Uniform(LineOf(g, w))
    ensures Winner(g).Some? ==>
      exists k :: 0 <= k < LineCount && AllAre(Lines(g)[k], Winner(g).value) &&
        forall j :: 0 <= j < k ==> !Uniform(Lines(g)[j])
  {
    FirstWinnerSpec(Lines(g));
    CatalogueShape();
    if Winner(g).None? {
      forall w | OnBoard(w) ensures !Uniform(LineOf(g, w)) {
        CatalogueComplete(w);
        var k :| 0 <= k < |Catalogue()| && Catalogue()[k] == w;
        assert Lines(g)[k] == LineOf(g, w);
      }
    } else {
      var k :| 0 <= k < LineCount && Uniform(Lines(g)[k]);
      assert OnBoard(Catalogue()[k]);
    }
  }

  /** checkWinner: collects the lines and scans them for the first complete one. */
  method CheckWinner(board: array2<Cell>) returns (winner: Option<Player>)
    requires HasBoardShape(board)
    ensures winner == Winner(Snap(board))
  {
    var lines := GetAllLines(board);
    winner := ScanLines(lines);
  }

  /** The loop of checkWinner over the collected lines. */
  method ScanLines(lines: seq<seq<Cell>>) returns (winner: Option<Player>)
    requires forall k :: 0 <= k < |lines| ==> |lines[k]| == WinLength
    ensures winner == FirstWinner(lines)
  {
    for i := 0 to |lines|
      invariant FirstWinner(lines[i..]) == FirstWinner(lines)
    {
      var line := lines[i];
      assert lines[i..][1..] == lines[i + 1..];
      if AllAre(line, X) && line[0] != Empty {
        return Some(X);
      }
      if AllAre(line, O) && line[0] != Empty {
        return Some(O);
      }
    }
    return None;
  }
}
