/**
 * The top level of bot/tatetiminimax.js: findWinningMove, the one-ply search for a
 * move that wins at once, and getBestMove, the policy "win, else block, else search,
 * else the first empty cell".
 */
module Bot {
  import opened Wrappers
  import opened Board
  import opened LineCatalog
  import opened AlphaBeta
  import opened PlainMinimax

  /** MAX_DEPTH: the number of plies getBestMove searches. */
  const MaxDepth := 3

  /** Playing `sym` at `m` makes checkWinner report `sym`. */
  predicate WinsAt(g: Grid, m: Pos, sym: Player)
    requires IsGrid(g) && InBounds(m)
  {
    Winner(Set(g, m, sym)) == Some(sym)
  }

  /** The loop of findWinningMove: the first of `moves` that wins for `sym`. */
  function FirstWinning(g: Grid, moves: seq<Pos>, sym: Player): Option<Pos>
    requires IsGrid(g) && forall k :: 0 <= k < |moves| ==> InBounds(moves[k])
  {
    if moves == [] then None
    else if WinsAt(g, moves[0], sym) then Some(moves[0])
    else FirstWinning(g, moves[1..], sym)
  }

  /** findWinningMove on a board value. */
  function WinningMove(g: Grid, sym: Player): Option<Pos>
    requires IsGrid(g)
  {
    AvailableMovesAreEmpty(g);
    FirstWinning(g, AvailableMoves(g), sym)
  }

  /** The loop finds the first winning move of the list, and finds none only when none wins. */
  lemma {:induction false} FirstWinningSpec(g: Grid, moves: seq<Pos>, sym: Player)
    requires IsGrid(g) && forall k :: 0 <= k < |moves| ==> InBounds(moves[k])
    ensures FirstWinning(g, moves, sym).None? <==> forall k :: 0 <= k < |moves| ==> !WinsAt(g, moves[k], sym)
    ensures FirstWinning(g, moves, sym).Some? ==>
      exists k :: 0 <= k < |moves| && moves[k] == FirstWinning(g, moves, sym).value && WinsAt(g, moves[k], sym) &&
        forall j :: 0 <= j < k ==> !WinsAt(g, moves[j], sym)
  {
    if moves != [] && !WinsAt(g, moves[0], sym) {
      var rest := moves[1..];
      FirstWinningSpec(g, rest, sym);
      if FirstWinning(g, rest, sym).Some? {
        var k :| 0 <= k < |rest| && rest[k] == FirstWinning(g, rest, sym).value && WinsAt(g, rest[k], sym) &&
          forall j :: 0 <= j < k ==> !WinsAt(g, rest[j], sym);
        assert moves[k + 1] == rest[k];
        forall j | 0 <= j < k + 1 ensures !WinsAt(g, moves[j], sym) {
          if j > 0 {
            assert moves[j] == rest[j - 1];
          }
        }
      } else {
        forall k | 0 <= k < |moves| ensures !WinsAt(g, moves[k], sym) {
          if k > 0 {
            assert moves[k] == rest[k - 1];
          }
        }
      }
    } else if moves != [] {
      assert WinsAt(g, moves[0], sym);
    }
  }

  /** findWinningMove returns an empty cell where `sym` wins at once, the first such cell in
      row-major order; it returns null exactly when no empty cell wins. */
  lemma WinningMoveSpec(g: Grid, sym: Player)
    requires IsGrid(g)
    ensures WinningMove(g, sym).None? <==>
      forall m :: InBounds(m) && At(g, m) == Empty ==> !WinsAt(g, m, sym)
    ensures WinningMove(g, sym).Some? ==>
      var m := WinningMove(g, sym).value;
      InBounds(m) && At(g, m) == Empty && WinsAt(g, m, sym) &&
      forall m' :: InBounds(m') && At(g, m') == Empty && Index(m') < Index(m) ==> !WinsAt(g, m', sym)
  {
    WinningMoveNone(g, sym);
    if WinningMove(g, sym).Some? {
      WinningMoveFirst(g, sym);
    }
  }

  lemma WinningMoveNone(g: Grid, sym: Player)
    requires IsGrid(g)
    ensures WinningMove(g, sym).None? <==>
      forall m :: InBounds(m) && At(g, m) == Empty ==> !WinsAt(g, m, sym)
  {
    var moves := AvailableMoves(g);
    AvailableMovesAreEmpty(g);
    FirstWinningSpec(g, moves, sym);
    if WinningMove(g, sym).None? {
      forall m | InBounds(m) && At(g, m) == Empty ensures !WinsAt(g, m, sym) {
        AvailableMovesSpec(g);
        assert m in moves;
      }
    }
  }

  lemma WinningMoveFirst(g: Grid, sym: Player)
    requires IsGrid(g) && WinningMove(g, sym).Some?
    ensures var m := WinningMove(g, sym).value;
      InBounds(m) && At(g, m) == Empty && WinsAt(g, m, sym) &&
      forall m' :: InBounds(m') && At(g, m') == Empty && Index(m') < Index(m) ==> !WinsAt(g, m', sym)
  {
    var moves := AvailableMoves(g);
    AvailableMovesAreEmpty(g);
    FirstWinningSpec(g, moves, sym);
    var k :| 0 <= k < |moves| && moves[k] == WinningMove(g, sym).value && WinsAt(g, moves[k], sym) &&
      forall j :: 0 <= j < k ==> !WinsAt(g, moves[j], sym);
    forall m' | InBounds(m') && At(g, m') == Empty && Index(m') < Index(moves[k])
      ensures !WinsAt(g, m', sym)
    {
      AvailableBefore(g, k, m');
    }
  }

  /** findWinningMove: for each available move in order, try it, returning the move at the first win. */
  method FindWinningMove(board: array2<Cell>, sym: Player) returns (move: Option<Pos>)
    requires HasBoardShape(board)
    modifies board
    ensures Snap(board) == old(Snap(board))
    ensures move == WinningMove(old(Snap(board)), sym)
  {
    ghost var g := Snap(board);
    AvailableMovesAreEmpty(g);
    var moves := GetAvailableMoves(board);
    var i := 0;
    while i < |moves|
      invariant 0 <= i <= |moves|
      invariant Snap(board) == g
      invariant FirstWinning(g, moves[i..], sym) == WinningMove(g, sym)
    {
      FirstWinningStep(g, moves, i, sym);
      var wins := TryMove(board, moves[i], sym);
      if wins {
        return Some(moves[i]);
      }
      i := i + 1;
    }
    return None;
  }

  lemma FirstWinningStep(g: Grid, moves: seq<Pos>, i: nat, sym: Player)
    requires IsGrid(g) && i < |moves| && forall k :: 0 <= k < |moves| ==> InBounds(moves[k])
    ensures FirstWinning(g, moves[i..], sym)
         == if WinsAt(g, moves[i], sym) then Some(moves[i]) else FirstWinning(g, moves[i + 1..], sym)
  {
    assert moves[i..][0] == moves[i] && moves[i..][1..] == moves[i + 1..];
  }

  /** The body of the loop of findWinningMove: write `sym` at `m`, ask checkWinner whether
      `sym` has won, and clear the cell again. */
  method TryMove(board: array2<Cell>, m: Pos, sym: Player) returns (wins: bool)
    requires HasBoardShape(board) && InBounds(m) && board[m.row, m.col] == Empty
    modifies board
    ensures Snap(board) == old(Snap(board))
    ensures wins == WinsAt(old(Snap(board)), m, sym)
  {
    ghost var g := Snap(board);
    board[m.row, m.col] := sym;
    SnapIs(board, Set(g, m, sym));
    var winner := CheckWinner(board);
    board[m.row, m.col] := Empty;
    SnapIs(board, g);
    wins := winner == Some(sym);
  }

  /** The moves getBestMove may return, one of which it returns at random: the immediate win,
      else the block of the opponent's immediate win, else the ties of a search MAX_DEPTH plies
      deep, else the first empty cell; none on a full board. */
  function BestMoveChoices(g: Grid, bot: Player): seq<Pos>
    requires IsGrid(g)
  {
    var opp := Opponent(bot);
    var win := WinningMove(g, bot);
    var block := WinningMove(g, opp);
    if win.Some? then [win.value]
    else if block.Some? then [block.value]
    else
      var ties := Search(g, MaxDepth, NegInf, PosInf, true, bot, opp).ties;
      if ties != [] then ties
      else match FirstAvailable(g)
        case Some(m) => [m]
        case None => []
  }

  /** getBestMove only returns empty cells, and returns none exactly when the board is full. */
  lemma BestMoveChoicesSpec(g: Grid, bot: Player)
    requires IsGrid(g)
    ensures forall m :: m in BestMoveChoices(g, bot) ==> InBounds(m) && At(g, m) == Empty
    ensures BestMoveChoices(g, bot) == [] <==> IsFull(g)
  {
    var opp := Opponent(bot);
    var win, block := WinningMove(g, bot), WinningMove(g, opp);
    if win.Some? {
      WinningMoveFirst(g, bot);
      assert !IsFull(g) by {
        assert g[win.value.row][win.value.col] == Empty;
      }
    } else if block.Some? {
      WinningMoveFirst(g, opp);
      assert !IsFull(g) by {
        assert g[block.value.row][block.value.col] == Empty;
      }
    } else {
      SearchTies(g, MaxDepth, NegInf, PosInf, true, bot, opp);
      FirstAvailableSpec(g);
    }
  }

  /** An immediate win comes before anything else, and a block before the search. */
  lemma BestMoveChoicesPriority(g: Grid, bot: Player)
    requires IsGrid(g)
    ensures WinningMove(g, bot).Some? ==> BestMoveChoices(g, bot) == [WinningMove(g, bot).value]
    ensures WinningMove(g, bot).None? && WinningMove(g, Opponent(bot)).Some? ==>
      BestMoveChoices(g, bot) == [WinningMove(g, Opponent(bot)).value]
    ensures WinningMove(g, bot).None? && WinningMove(g, Opponent(bot)).None? && !IsLeaf(g, MaxDepth, bot, Opponent(bot)) ==>
      BestMoveChoices(g, bot) == Search(g, MaxDepth, NegInf, PosInf, true, bot, Opponent(bot)).ties
  {
    SearchTies(g, MaxDepth, NegInf, PosInf, true, bot, Opponent(bot));
  }

  /** When getBestMove falls back on the search, the first of its choices is a best move by
      plain minimax MAX_DEPTH plies deep, and none of them is better than that. */
  lemma BestMoveChoicesOptimal(g: Grid, bot: Player)
    requires IsGrid(g) && WinningMove(g, bot).None? && WinningMove(g, Opponent(bot)).None?
    requires !IsLeaf(g, MaxDepth, bot, Opponent(bot))
    ensures var choices := BestMoveChoices(g, bot);
      choices != [] && InBounds(choices[0]) &&
      ChildValue(g, choices[0], MaxDepth, true, bot, Opponent(bot)) == Value(g, MaxDepth, true, bot, Opponent(bot)) &&
      forall m :: m in choices ==>
        InBounds(m) && ChildValue(g, m, MaxDepth, true, bot, Opponent(bot)) <= Value(g, MaxDepth, true, bot, Opponent(bot))
  {
    RootFirstTie(g, MaxDepth, bot, Opponent(bot));
    RootTiesBounded(g, MaxDepth, bot, Opponent(bot));
  }

  /** With a single empty cell left, getBestMove plays it. */
  lemma LastEmptyCell(g: Grid, bot: Player, m: Pos)
    requires IsGrid(g) && InBounds(m) && At(g, m) == Empty
    requires forall m' :: InBounds(m') && At(g, m') == Empty ==> m' == m
    ensures BestMoveChoices(g, bot) != [] && forall c :: c in BestMoveChoices(g, bot) ==> c == m
  {
    BestMoveChoicesSpec(g, bot);
    assert !IsFull(g) by {
      assert g[m.row][m.col] == Empty;
    }
  }

  /** getBestMove: win, else block, else minimax, else getFirstAvailableMove. The random pick
      among minimax's ties is any one of them. */
  method GetBestMove(board: array2<Cell>, bot: Player) returns (move: Option<Pos>)
    requires HasBoardShape(board)
    modifies board
    ensures Snap(board) == old(Snap(board))
    ensures move.None? <==> BestMoveChoices(old(Snap(board)), bot) == []
    ensures move.Some? ==> move.value in BestMoveChoices(old(Snap(board)), bot)
  {
    ghost var g := Snap(board);
    var opp := if bot == X then O else X;
    assert opp == Opponent(bot);
    var win := FindWinningMove(board, bot);
    if win.Some? {
      return win;
    }
    var block := FindWinningMove(board, opp);
    if block.Some? {
      return block;
    }
    var score;
    score, move := Minimax(board, MaxDepth, NegInf, PosInf, true, bot, opp);
    if move.None? {
      move := GetFirstAvailableMove(board);
    }
  }
}
