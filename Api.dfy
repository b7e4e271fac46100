/**
 * The /move handler of api/index.js: the flat 25-cell board of the arbiter is checked,
 * cut into 5 rows, converted to the engine's symbols (convertirTablero), handed to
 * getBestMove with the bot's symbol, and the move is answered as a linear index.
 */
module Api {
  import opened Wrappers
  import opened Board
  import opened Request
  import opened Bot

  const MissingBoard := "Parametro board requerido"
  const NotFlatBoard := "El tablero debe ser un array plano de 25 celdas"
  const MoveFailed := "Error al calcular movimiento"

  /** convertirTablero on one cell: 0 is '', 1 is 'X', 2 is 'O', and anything else is ''. */
  function ToCell(v: Json): Cell {
    if v == JNumber(0.0) then Empty
    else if v == JNumber(1.0) then X
    else if v == JNumber(2.0) then O
    else Empty
  }

  /** The arbiter's code of a cell. */
  function CellCode(c: Cell): Json {
    match c
    case Empty => JNumber(0.0)
    case X => JNumber(1.0)
    case O => JNumber(2.0)
  }

  /** The arbiter's codes convert back to the cells they encode, and only 1 and 2 give a mark. */
  lemma ToCellSpec(v: Json, c: Cell)
    ensures ToCell(CellCode(c)) == c
    ensures ToCell(v) == X <==> v == JNumber(1.0)
    ensures ToCell(v) == O <==> v == JNumber(2.0)
  {
  }

  /** convertirTablero: the nested map of ToCell over the rows. */
  function ConvertBoard(rows: seq<seq<Json>>): (g: seq<seq<Cell>>)
    ensures |g| == |rows|
    ensures forall i :: 0 <= i < |rows| ==> |g[i]| == |rows[i]|
    ensures forall i, j :: 0 <= i < |rows| && 0 <= j < |rows[i]| ==> g[i][j] == ToCell(rows[i][j])
  {
    seq(|rows|, i requires 0 <= i < |rows| =>
      seq(|rows[i]|, j requires 0 <= j < |rows[i]| => ToCell(rows[i][j])))
  }

  /** The loop of the handler that pushes `board.slice(i * 5, i * 5 + 5)` for each of the 5 rows. */
  function Reshape(cells: seq<Json>): (rows: seq<seq<Json>>)
    requires |cells| == BoardSize * BoardSize
  {
    seq(BoardSize, i requires 0 <= i < BoardSize => cells[i * 5..i * 5 + 5])
  }

  /** The rows of a flat board, one after the other. */
  function Flatten(rows: seq<seq<Json>>): seq<Json> {
    if rows == [] then [] else Flatten(rows[..|rows| - 1]) + rows[|rows| - 1]
  }

  /** The reshape gives 5 rows of 5 cells, cell (r, c) being the flat cell at r * 5 + c. */
  lemma ReshapeSpec(cells: seq<Json>)
    requires |cells| == BoardSize * BoardSize
    ensures |Reshape(cells)| == BoardSize
    ensures forall r :: 0 <= r < BoardSize ==> |Reshape(cells)[r]| == BoardSize
    ensures forall r, c :: 0 <= r < BoardSize && 0 <= c < BoardSize ==> Reshape(cells)[r][c] == cells[r * 5 + c]
  {
  }

  lemma {:induction false} FlattenPrefix(cells: seq<Json>, n: nat)
    requires |cells| == BoardSize * BoardSize && n <= BoardSize
    ensures Flatten(Reshape(cells)[..n]) == cells[..n * 5]
  {
    if n > 0 {
      var rows := Reshape(cells)[..n];
      assert rows[..n - 1] == Reshape(cells)[..n - 1];
      FlattenPrefix(cells, n - 1);
      assert cells[..n * 5] == cells[..(n - 1) * 5] + cells[(n - 1) * 5..n * 5];
    }
  }

  /** Reshaping loses nothing: the rows put back together are the flat board. */
  lemma FlattenReshape(cells: seq<Json>)
    requires |cells| == BoardSize * BoardSize
    ensures Flatten(Reshape(cells)) == cells
  {
    FlattenPrefix(cells, BoardSize);
    assert Reshape(cells)[..BoardSize] == Reshape(cells);
    assert cells[..BoardSize * 5] == cells;
  }

  /** The linear index `move.row * 5 + move.col` of a cell lies in 0..24, names the flat cell
      the reshape put at that row and column, and no two cells share it. */
  lemma LinearIndexSpec(cells: seq<Json>, m: Pos, m': Pos)
    requires |cells| == BoardSize * BoardSize && InBounds(m) && InBounds(m')
    ensures 0 <= Index(m) < BoardSize * BoardSize
    ensures Index(m) == m.row * 5 + m.col && Reshape(cells)[m.row][m.col] == cells[Index(m)]
    ensures Index(m) == Index(m') ==> m == m'
  {
    ReshapeSpec(cells);
  }

  /** The bot plays 'X' when the player id is 1 and 'O' for any other id, including one that
      is not a number (`None`). */
  function BotSymbol(playerId: Option<int>): (p: Player)
    ensures p == X <==> playerId == Some(1)
  {
    if playerId == Some(1) then X else O
  }

  /** The checks before the bot runs: the board must be present and non-empty, parse as JSON
      (a parse error lands in the catch, a 500), and be an array of exactly 25 cells. */
  function Admit(board: BoardParam, parse: string -> Option<Json>): Result<seq<Json>, Reply> {
    match board
    case Missing => Err(Rejected(BadRequest, MissingBoard))
    case Text(s) =>
      if s == "" then Err(Rejected(BadRequest, MissingBoard))
      else match parse(s)
        case None => Err(Rejected(ServerError, MoveFailed))
        case Some(JArray(items)) =>
          if |items| == BoardSize * BoardSize then Ok(items) else Err(Rejected(BadRequest, NotFlatBoard))
        case Some(_) => Err(Rejected(BadRequest, NotFlatBoard))
  }

  /** Only an array of exactly 25 cells gets through. */
  lemma AdmitSpec(board: BoardParam, parse: string -> Option<Json>)
    ensures Admit(board, parse).Ok? <==>
      board.Text? && board.s != "" && parse(board.s).Some? && parse(board.s).value.JArray? &&
      |parse(board.s).value.items| == BoardSize * BoardSize
    ensures Admit(board, parse).Ok? ==> Admit(board, parse).value == parse(board.s).value.items
  {
  }

  /** The board the engine sees for an admitted flat board. */
  function EngineBoard(cells: seq<Json>): (g: Grid)
    requires |cells| == BoardSize * BoardSize
    ensures IsGrid(g)
    ensures forall r, c :: 0 <= r < BoardSize && 0 <= c < BoardSize ==> g[r][c] == ToCell(cells[r * 5 + c])
  {
    ReshapeSpec(cells);
    ConvertBoard(Reshape(cells))
  }

  /** The engine board has an empty cell where the flat board has neither 1 nor 2. */
  lemma EngineBoardCell(cells: seq<Json>, m: Pos)
    requires |cells| == BoardSize * BoardSize && InBounds(m)
    ensures 0 <= Index(m) < BoardSize * BoardSize
    ensures At(EngineBoard(cells), m) == ToCell(cells[Index(m)])
    ensures At(EngineBoard(cells), m) == Empty <==> cells[Index(m)] != JNumber(1.0) && cells[Index(m)] != JNumber(2.0)
  {
  }

  /** The engine board is full exactly when every flat cell is 1 or 2. */
  lemma EngineBoardFull(cells: seq<Json>)
    requires |cells| == BoardSize * BoardSize
    ensures IsFull(EngineBoard(cells)) <==>
      forall n :: 0 <= n < BoardSize * BoardSize ==> cells[n] == JNumber(1.0) || cells[n] == JNumber(2.0)
  {
    var g := EngineBoard(cells);
    if !IsFull(g) {
      var r, c :| 0 <= r < BoardSize && 0 <= c < BoardSize && g[r][c] == Empty;
      assert ToCell(cells[r * 5 + c]) == Empty;
    } else {
      forall n | 0 <= n < BoardSize * BoardSize ensures cells[n] == JNumber(1.0) || cells[n] == JNumber(2.0) {
        assert g[n / 5][n % 5] != Empty;
      }
    }
  }

  /** A move the handler may answer is the index of a flat cell the arbiter left free
      (neither 1 nor 2); there is such a move unless every cell is 1 or 2. */
  lemma PlayedCellIsFree(cells: seq<Json>, bot: Player)
    requires |cells| == BoardSize * BoardSize
    ensures forall m :: m in BestMoveChoices(EngineBoard(cells), bot) ==>
      0 <= Index(m) < BoardSize * BoardSize && cells[Index(m)] != JNumber(1.0) && cells[Index(m)] != JNumber(2.0)
    ensures BestMoveChoices(EngineBoard(cells), bot) == [] <==>
      forall n :: 0 <= n < BoardSize * BoardSize ==> cells[n] == JNumber(1.0) || cells[n] == JNumber(2.0)
  {
    BestMoveChoicesSpec(EngineBoard(cells), bot);
    EngineBoardFull(cells);
    forall m | m in BestMoveChoices(EngineBoard(cells), bot)
      ensures 0 <= Index(m) < BoardSize * BoardSize && cells[Index(m)] != JNumber(1.0) && cells[Index(m)] != JNumber(2.0)
    {
      EngineBoardCell(cells, m);
    }
  }

  /** The 5x5 board built from the rows and handed to getBestMove. */
  method ChooseMove(cells: seq<Json>, bot: Player) returns (move: Option<Pos>)
    requires |cells| == BoardSize * BoardSize
    ensures move.None? <==> BestMoveChoices(EngineBoard(cells), bot) == []
    ensures move.Some? ==> move.value in BestMoveChoices(EngineBoard(cells), bot)
  {
    var g := EngineBoard(cells);
    var grid := new Cell[BoardSize, BoardSize]((r, c) requires 0 <= r < BoardSize && 0 <= c < BoardSize => g[r][c]);
    SnapIs(grid, g);
    move := GetBestMove(grid, bot);
  }

  /** GET /move: admit the board, let getBestMove choose on a fresh 5x5 board, and answer the
      linear index. On a full board getBestMove returns null and reading `move.row` throws,
      which the catch answers with a 500. */
  method HandleMove(board: BoardParam, playerId: Option<int>, parse: string -> Option<Json>)
    returns (reply: Reply)
    ensures Admit(board, parse).Err? ==> reply == Admit(board, parse).error
    ensures Admit(board, parse).Ok? ==>
      var choices := BestMoveChoices(EngineBoard(Admit(board, parse).value), BotSymbol(playerId));
      (choices == [] ==> reply == Rejected(ServerError, MoveFailed)) &&
      (choices != [] ==> exists m :: m in choices && reply == Played(Index(m)))
  {
    var admitted := Admit(board, parse);
    if admitted.Err? {
      return admitted.error;
    }
    var move := ChooseMove(admitted.value, BotSymbol(playerId));
    if move.None? {
      return Rejected(ServerError, MoveFailed);
    }
    reply := Played(move.value.row * 5 + move.value.col);
  }
}
