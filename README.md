# Ta-Te-Ti bots: a Dafny model

This project models the move-choosing servers of a tic-tac-toe ("ta-te-ti") repository:

- **The 5x5 engine** of `bot/tatetiminimax.js`. It plays "four in a row" on a 5x5 board. Its
  policy is: take an immediate win; otherwise block the opponent's immediate win; otherwise
  run minimax with alpha-beta pruning, three plies deep; otherwise take the first empty cell.
  - The search orders its moves by a heuristic. The heuristic scores open threes and twos in
    each of the 28 four-cell windows, the centre cell, and pairs of open threes ("double
    threats").
  - The search picks at random among the moves that tie for the best score.
- **The `/move` handler of `api/index.js`.** It checks the flat 25-cell board the arbiter
  sends, cuts it into five rows and converts 0/1/2 to ''/'X'/'O'. It then asks the engine for
  a move with the bot's symbol and answers the move as a linear index 0..24.
- **The two 3x3 random servers, `tateti.js` and `tateti-random.js`.** Each checks a 9-cell
  board and answers a random index whose cell is 0.

The engine works by writing into its board and undoing the writes. So the board is an
`array2<Cell>` there, and every engine method is proved against a pure function of the
board's contents (`Board.Snap`). The methods also prove that the board ends as it started.

What is proved about the model:

- The line catalogue is complete, and the win detector is correct.
- The heuristic is bounded and zero-sum. A "three blocked" score can never arise on a
  four-cell window, because a line with three of one side and no empty cell is mixed.
- The move order is a stable descending permutation.
- Alpha-beta agrees with plain minimax: exactly under the root window the engine opens, and
  as a fail-soft bound under any narrower window.
- The first of the root's tied moves is a minimax-optimal move.
- `getBestMove` only ever plays an empty cell. On a full board it has no move, and the
  handler then answers 500.
- Each handler's checks admit exactly the boards they should.

The constants are the source's: a 5x5 board, four in a row, a search `MAX_DEPTH = 3` plies
deep, and the weight table of `HEURISTIC_VALUES`. `THREE_BLOCKED` and `BLOCK_WIN` are kept,
though the first is unreachable and the second is read nowhere.

## Model

| member | source | states |
|---|---|---|
| Board.Opponent | bot/tatetiminimax.js:28 | the opponent's symbol is never the bot's |
| Board.Set | bot/tatetiminimax.js:77-79 | writing one cell changes that cell and no other |
| Board.SetSame | bot/tatetiminimax.js:77-79 | writing back the value a cell held leaves the board as it was (the write/undo pattern of the search) |
| Board.AvailableMovesSpec | bot/tatetiminimax.js:321-333 | getAvailableMoves lists exactly the empty cells, in strictly increasing row-major order (so each once) |
| Board.AvailableBefore | bot/tatetiminimax.js:321-333 | an empty cell earlier in row-major order than the k-th listed move is listed before it |
| Board.FullIffNoMoves | bot/tatetiminimax.js:314-316 | isBoardFull holds exactly when getAvailableMoves finds no move |
| Board.IsFull | bot/tatetiminimax.js:314-316 | isBoardFull on a board value: no cell is empty; FullIffNoMoves states that it holds exactly when getAvailableMoves finds no move |
| Board.FirstAvailableSpec | bot/tatetiminimax.js:338-347 | getFirstAvailableMove returns null exactly on a full board; otherwise it returns an empty cell with no empty cell before it in row-major order |
| Board.GetAvailableMoves | bot/tatetiminimax.js:321-333 | the nested loops return the list of AvailableMoves for the board's contents |
| Board.GetFirstAvailableMove | bot/tatetiminimax.js:338-347 | the nested loops with early return give FirstAvailable of the board's contents |
| LineCatalog.CatalogueShape | bot/tatetiminimax.js:238-290 | getAllLines pushes 28 windows: 10 horizontal, then 10 vertical, then 4 "↘", then 4 "↙", all on the board |
| LineCatalog.CatalogueComplete | bot/tatetiminimax.js:238-290 | a four-cell window lies on the board exactly when getAllLines lists it |
| LineCatalog.Lines | bot/tatetiminimax.js:238-290 | getAllLines yields 28 lines of 4 cells each |
| LineCatalog.HorizontalLine | bot/tatetiminimax.js:242-251 | line 2*row+col holds the four cells from (row, col) to the right |
| LineCatalog.VerticalLine | bot/tatetiminimax.js:254-263 | line 10+2*col+row holds the four cells from (row, col) downwards |
| LineCatalog.DiagonalLine | bot/tatetiminimax.js:266-275 | line 20+2*row+col holds the four cells from (row, col) down and to the right |
| LineCatalog.AntiDiagonalLine | bot/tatetiminimax.js:278-287 | line 24+2*row+col-3 holds the four cells from (row, col) down and to the left |
| LineCatalog.GetAllLines | bot/tatetiminimax.js:238-290 | the four pairs of nested loops return Lines of the board's contents |
| LineCatalog.FirstWinnerSpec | bot/tatetiminimax.js:299-306 | the scan answers null exactly when no line holds four equal symbols; otherwise it answers the symbol of the first such line |
| LineCatalog.WinnerSpec | bot/tatetiminimax.js:296-309 | checkWinner answers null exactly when no window on the board holds four equal symbols; an answer p is the symbol of the first complete window in catalogue order |
| LineCatalog.Winner | bot/tatetiminimax.js:296-309 | checkWinner on a board value: the first complete line of the catalogue; WinnerSpec and FirstWinnerSpec state what it answers |
| LineCatalog.CheckWinner | bot/tatetiminimax.js:296-309 | the method returns Winner of the board's contents |
| LineCatalog.ScanLines | bot/tatetiminimax.js:299-306 | the loop with early returns computes FirstWinner of the lines |
| Heuristic.CountTotal | bot/tatetiminimax.js:152-154 | the counts of '', 'X' and 'O' add up to the line's length |
| Heuristic.EvaluateLineCases | bot/tatetiminimax.js:151-178 | on a four-cell line a mixed line scores 0, and the only scores are ±500 (three and an empty cell) and ±50 (two and two empty cells) or 0, each in exactly its case; THREE_BLOCKED is never added |
| Heuristic.EvaluateLineAntisymmetric | bot/tatetiminimax.js:151-178 | swapping the two sides negates a line's score |
| Heuristic.EvaluateLine | bot/tatetiminimax.js:151-178 | evaluateLine: the counts of the two sides and of empty cells pick the score; EvaluateLineCases states each case and EvaluateLineAntisymmetric the zero-sum property |
| Heuristic.PairsClosedForm | bot/tatetiminimax.js:187-202 | the pairs counted by the two loops number k(k-1)/2 for k threat lines |
| Heuristic.EvaluateDoubleThreats | bot/tatetiminimax.js:183-205 | the method returns the number of pairs of distinct threat lines (three of the symbol and one empty cell) |
| Heuristic.CountThreatPairs | bot/tatetiminimax.js:187-202 | the outer loop counts Pairs of the number of threat lines |
| Heuristic.CountThreatsFrom | bot/tatetiminimax.js:193-200 | the inner loop counts the threat lines from index `from` onwards |
| Heuristic.EvaluateBoard | bot/tatetiminimax.js:124-146 | the method returns BoardScore of the board's contents: line scores, the centre bonus and the double-threat terms |
| Heuristic.SumLines | bot/tatetiminimax.js:130-132 | the loop sums evaluateLine over the lines |
| Heuristic.BoardScoreBounded | bot/tatetiminimax.js:124-146 | evaluateBoard lies within ±(28*500 + 30 + 378*800) |
| Heuristic.BoardScoreAntisymmetric | bot/tatetiminimax.js:124-146 | scoring a board for the other side negates the score (the heuristic is zero-sum) |
| MoveOrder.SortDescPermutation | bot/tatetiminimax.js:64-68 | the sort keeps the same scored moves, each as often |
| MoveOrder.SortDescSorted | bot/tatetiminimax.js:64-68 | the sort yields non-increasing keys (comparator `scoreB - scoreA`) |
| MoveOrder.SortDescStable | bot/tatetiminimax.js:64-68 | moves with equal keys keep their original order |
| MoveOrder.KeyedSpec | bot/tatetiminimax.js:65-66 | each move is keyed by its own evaluateMove score for the side to move |
| MoveOrder.Ordered | bot/tatetiminimax.js:64-68 | the ordered moves are a permutation of the available moves |
| MoveOrder.OrderedDescending | bot/tatetiminimax.js:64-68 | the ordered moves have non-increasing evaluateMove scores |
| MoveOrder.EvaluateMove | bot/tatetiminimax.js:210-215 | the score is evaluateBoard after placing the symbol; afterwards the cell is '' and every other cell is unchanged |
| MoveOrder.OrderMoves | bot/tatetiminimax.js:64-68 | the method returns Ordered for the board's contents and leaves the board unchanged |
| MoveOrder.ScoreMoves | bot/tatetiminimax.js:65-66 | the method pairs each move with its evaluateMove score and leaves the board unchanged |
| AlphaBeta.MaxB | bot/tatetiminimax.js:89 | Math.max(alpha, score) is at least both and is one of them |
| AlphaBeta.MinB | bot/tatetiminimax.js:112 | Math.min(beta, score) is at most both and is one of them |
| AlphaBeta.OrderedMoves | bot/tatetiminimax.js:61-68 | the moves minimax explores are a permutation of the empty cells |
| AlphaBeta.Explore | bot/tatetiminimax.js:76-91 | the loop explores at most the given moves, and at least one when there is one |
| AlphaBeta.ExploreFollowsMoves | bot/tatetiminimax.js:76-91 | the loop explores a prefix of the ordered moves, in their order |
| AlphaBeta.BestSpec | bot/tatetiminimax.js:81-88 | the running best score is one of the explored scores and no explored score beats it |
| AlphaBeta.TiesSpec | bot/tatetiminimax.js:81-87 | a move is in bestMoves exactly when it was explored and scored the given value |
| AlphaBeta.TiesOfBestNonEmpty | bot/tatetiminimax.js:94 | bestMoves is never empty after the loop, so the random pick is defined |
| AlphaBeta.RecordStep | bot/tatetiminimax.js:81-87 | a strictly better score resets bestMoves to that move, an equal one appends it, and a worse one changes nothing |
| AlphaBeta.SearchTies | bot/tatetiminimax.js:47-119 | minimax returns no move exactly at a leaf (a win, a full board or depth 0); the moves it may return are empty cells |
| AlphaBeta.MinNodeStopsAtAlpha | bot/tatetiminimax.js:99-118 | a minimizing node searched with alpha = v whose first reply scores exactly v breaks after it and returns v with that reply as its only tie, whatever the later replies score |
| AlphaBeta.SearchBounded | bot/tatetiminimax.js:47-119 | a search `depth` plies deep scores within ±(HeuristicBound + depth) |
| AlphaBeta.LeafScore | bot/tatetiminimax.js:48-59 | the base cases of minimax: a win for the bot scores HEURISTIC_VALUES.WIN + depth, one for the opponent -WIN - depth, and a full board or depth 0 the heuristic; SearchCases states that leaves return this score and no move, SearchBounded bounds it |
| AlphaBeta.Search | bot/tatetiminimax.js:47-119 | minimax on a board value, returning its score and the tied moves it picks among; SearchCases, SearchTies and SearchBounded state its cases, its moves and its bounds, and PlainMinimax.SearchIsMinimax its agreement with plain minimax |
| AlphaBeta.Visit | bot/tatetiminimax.js:47-119 | the same function as Search, one unfolding level lower (see "## Left out"); its properties are those of Search |
| AlphaBeta.Node | bot/tatetiminimax.js:47-119 | one node of minimax: a leaf is scored by LeafScore, else the ordered moves are explored and the best score comes with its ties; SearchCases states this of Search, ExploreFollowsMoves, BestSpec and TiesSpec state what the trace gives |
| AlphaBeta.Minimax | bot/tatetiminimax.js:47-119 | the method returns Search's score and a move among its ties, and restores the board |
| AlphaBeta.Expand | bot/tatetiminimax.js:61-118 | an inner node lists and orders the moves and returns the best score of the loop and one of its ties, board restored |
| AlphaBeta.ExploreMoves | bot/tatetiminimax.js:73-117 | the loop over the ordered moves yields the running best score and its ties over the trace Explore describes, board restored |
| AlphaBeta.ExploreOne | bot/tatetiminimax.js:76-91 | one iteration plays and searches the next move, and the loop state it hands on is either the pruned end of the trace or the rest of the trace under the tightened alpha or beta |
| AlphaBeta.KeepBest | bot/tatetiminimax.js:81-87 | one iteration's bookkeeping keeps the running best score and its ties in step with the explored trace |
| AlphaBeta.PlayAndSearch | bot/tatetiminimax.js:77-79 | playing a move, searching one ply deeper and clearing the cell yields ScoreAfter and restores the board |
| PlainMinimax.ValueSpec | bot/tatetiminimax.js:61-117 | at an inner node the plain minimax value is reached by some empty cell and beaten by none (the maximum for the bot, the minimum for the opponent) |
| PlainMinimax.SearchAgrees | bot/tatetiminimax.js:47-119 | alpha-beta is fail-soft sound: a score above alpha is at most the minimax value, and a score below beta is at least it |
| PlainMinimax.SearchIsMinimax | bot/tatetiminimax.js:39 | with the window (-Infinity, Infinity) that getBestMove opens, minimax returns exactly the plain minimax value |
| PlainMinimax.RootFirstTie | bot/tatetiminimax.js:70-95 | at the root, the first of the tied moves is an empty cell whose value is the minimax value |
| PlainMinimax.RootTiesBounded | bot/tatetiminimax.js:81-94 | no move minimax may pick at the root has a value above the minimax value |
| PlainMinimax.PrunedNodeOverstates | bot/tatetiminimax.js:99-118 | such a cut-off minimizing node returns v although its exact minimax value is below v when another reply is worth less than v |
| Bot.WinningMoveSpec | bot/tatetiminimax.js:220-233 | findWinningMove returns null exactly when no empty cell wins at once; otherwise it returns the first winning empty cell in row-major order |
| Bot.WinningMove | bot/tatetiminimax.js:220-233 | findWinningMove on a board value; WinningMoveSpec states that it is the first row-major empty cell that wins at once, or none |
| Bot.FindWinningMove | bot/tatetiminimax.js:220-233 | the method returns WinningMove for the board's contents and restores the board |
| Bot.TryMove | bot/tatetiminimax.js:224-229 | playing the symbol, asking checkWinner and clearing the cell tells whether the move wins, board restored |
| Bot.BestMoveChoicesSpec | bot/tatetiminimax.js:27-42 | getBestMove only plays empty cells, and has no move exactly on a full board |
| Bot.BestMoveChoicesPriority | bot/tatetiminimax.js:30-39 | an immediate win comes first, then a block of the opponent's win, then the ties of the search |
| Bot.BestMoveChoicesOptimal | bot/tatetiminimax.js:38-41 | when getBestMove falls back on the search, its first choice is minimax-optimal three plies deep, and none of its choices is better than optimal |
| Bot.BestMoveChoices | bot/tatetiminimax.js:27-42 | the moves getBestMove may return; BestMoveChoicesSpec, BestMoveChoicesPriority and BestMoveChoicesOptimal state that they are empty cells, none only on a full board, win before block before search, and the search's first tie optimal |
| Bot.LastEmptyCell | bot/tatetiminimax.js:27-42 | with a single empty cell left, getBestMove plays it |
| Bot.GetBestMove | bot/tatetiminimax.js:27-42 | the method returns one of BestMoveChoices (none exactly when there are none) and restores the board |
| Api.ToCellSpec | api/index.js:69-78 | 0, 1 and 2 convert to '', 'X' and 'O'; only 1 gives 'X' and only 2 gives 'O', and anything else is '' |
| Api.ToCell | api/index.js:71-76 | convertirTablero on one cell; ToCellSpec states which values give '', 'X' and 'O' |
| Api.ConvertBoard | api/index.js:69-78 | convertirTablero keeps the shape of the rows and converts each cell on its own |
| Api.ReshapeSpec | api/index.js:35-39 | the reshape gives 5 rows of 5 cells, cell (r, c) being flat cell r*5+c |
| Api.FlattenReshape | api/index.js:35-39 | the rows put back together are the flat board, so nothing is lost |
| Api.Reshape | api/index.js:36-39 | the five `slice` calls of the handler; ReshapeSpec states the row-major layout and FlattenReshape that nothing is lost |
| Api.LinearIndexSpec | api/index.js:49 | row*5+col lies in 0..24, names the flat cell the reshape put at (row, col), and differs for different cells |
| Api.BotSymbol | api/index.js:42 | the bot plays 'X' exactly when the player id parses to 1; otherwise, including a non-number, it plays 'O' |
| Api.AdmitSpec | api/index.js:21-33 | only a present, non-empty parameter that parses to an array of exactly 25 cells passes, and the array is handed on unchanged |
| Api.Admit | api/index.js:21-33 | the checks before the bot runs; AdmitSpec states which parameters pass, and Api.HandleMove the reply of each failure |
| Api.EngineBoard | api/index.js:35-43 | the engine's board is 5x5 and its cell (r, c) is the conversion of flat cell r*5+c |
| Api.EngineBoardFull | api/index.js:35-46 | the engine sees a full board exactly when every flat cell is 1 or 2 |
| Api.PlayedCellIsFree | api/index.js:43-49 | every move the handler may answer is the index of a flat cell that is neither 1 nor 2, and there is none exactly when all 25 cells are 1 or 2 |
| Api.ChooseMove | api/index.js:43-46 | getBestMove on the converted board returns one of BestMoveChoices, or null exactly when there are none |
| Api.HandleMove | api/index.js:16-61 | a failed check gives its error; otherwise the reply is the linear index of one of getBestMove's choices, or a 500 when reading the move of a null result throws |
| Tateti.EmptyPositions | tateti.js:40-47 | posicionesVacias lists exactly the indices whose cell is the number 0, in increasing order |
| Tateti.EmptyPositionsUnique | tateti.js:40-47 | any increasing list of exactly those indices is posicionesVacias' result |
| Tateti.EmptyPositionsAllEmpty | test/tateti.test.js:14-17 | an empty 3x3 board gives [0..8] |
| Tateti.EmptyPositionsNoneEmpty | test/tateti.test.js:19-22 | a board of marks gives [] |
| Tateti.EmptyPositionsSomeEmpty | test/tateti.test.js:24-27 | [1,0,2,0,1,2,0,2,1] gives [1,3,6] |
| Tateti.EmptyPositionsEmpty | test/tateti.test.js:29-32 | posicionesVacias of an empty array is empty |
| Tateti.EmptyPositionsOtherNumbers | test/tateti.test.js:34-37 | [1..9] gives [], since only 0 counts as empty |
| Tateti.EmptyPositionsLastEmpty | test/tateti.test.js:39-42 | a single 0 in the last cell gives [8] |
| Tateti.ChoosePosition | tateti.js:35-38 | elegirPosicion returns a member of a non-empty list (the property of test/tateti.test.js:5-10), and undefined on an empty one |
| Tateti.ChoosePositionReaches | tateti.js:35-38 | every member of the list is returned for some value of Math.random |
| Tateti.AdmitSpec | tateti.js:10-18 | only a parameter that parses to an array of 9 cells passes; every failure is a 400, with the "inválido" message exactly when the parameter is absent or does not parse |
| Tateti.Admit | tateti.js:10-18 | the checks of the handler; Tateti.AdmitSpec states which parameters pass and which message each failure gets |
| Tateti.Play | tateti.js:20-28 | the reply is a move exactly when some cell is 0, and that move's cell is 0; otherwise it is the 400 "No hay movimientos disponibles." |
| Tateti.HandleMove | tateti.js:6-29 | a failed check gives its 400; otherwise the reply is Play on the admitted board |
| TatetiRandom.AdmitSpec | tateti-random.js:9-21 | only a present parameter that parses to an array of 9 cells passes; every failure is a 400, with its own message for an absent parameter and for one that does not parse |
| TatetiRandom.Admit | tateti-random.js:9-21 | the checks of the handler; TatetiRandom.AdmitSpec states which parameters pass and the message of each failure, and SameAsTateti compares them with tateti.js |
| TatetiRandom.SameAsTateti | tateti-random.js:9-21 | both 3x3 servers admit the same boards; they differ only in the messages for an absent or unparsable parameter |
| TatetiRandom.HandleMove | tateti-random.js:5-31 | a failed check gives its 400; otherwise it plays as tateti.js does (posicionesVacias and elegirPosicion of lines 39-49 compute the same), answering only an index whose cell is 0 |

## Left out

- HTTP, Express and the server start-up (`app.listen`, the `/` and `/health` endpoints, `process.env`) are not modelled. A handler's input is its `board` and `player` parameters and its output is a `Reply`.
- JSON.parse is a parameter `parse: string -> Option<Json>`; `None` stands for the exception it throws. JSON values other than numbers and arrays are one value, `JOther`. JavaScript's `-0 === 0` is true, and a parsed `-0` is the number 0 here too.
- parseInt of the `player` parameter is an `Option<int>` given to `Api.BotSymbol`; `NaN` is `None`.
- A `board` parameter given twice reaches api/index.js as an array, and the handler takes its first element (api/index.js:25-27). The model receives the one text, not the array. The 3x3 servers would hand the array to JSON.parse, which is not modelled either.
- Api.HandleMove: the `detalles` field of the 500 reply (the exception's message) and the `console.error` call are not modelled.
- `console.log` in tateti-random.js:45 is not modelled; it does not change the result.
- Math.random is a parameter `random` in [0, 1). Only the move it picks among the ties is modelled, not its distribution. In minimax the pick is any one of the ties: AlphaBeta.Minimax and Bot.GetBestMove promise a member of the ties, not which one.
- Array.prototype.sort with the comparator `scoreB - scoreA` is modelled as a stable insertion sort over the keys computed once per move. The comparator is a pure function of each move, so the order agrees with any stable sort. The count of evaluateMove calls the real sort makes is not modelled.
- PlainMinimax.RootTiesBounded: only the first tie at the root is proved optimal; the others are proved no better than optimal, because the source itself can offer a worse one. Say root move A scores exactly v, so alpha becomes v. If the first reply after move B also scores exactly v, the minimizing node after B breaks there and returns v, even when a later reply is worth less (AlphaBeta.MinNodeStopsAtAlpha, PlainMinimax.PrunedNodeOverstates). B then joins `bestMoves` (bot/tatetiminimax.js:85-87), and Math.random may pick it although its exact value is below v. No concrete board exhibiting this is given: a three-ply search with the heuristic is beyond what the model evaluates on constants.
- Heuristic.BlockWin: the constant BLOCK_WIN is in the weight table but read nowhere, so nothing uses it.
- The engine's internal helpers are split into smaller methods (AlphaBeta.Expand, AlphaBeta.ExploreMoves, AlphaBeta.ExploreOne, AlphaBeta.KeepBest, AlphaBeta.PlayAndSearch, LineCatalog.PushHorizontals and its siblings, Heuristic.SumLines, MoveOrder.ScoreMoves, Bot.TryMove). Each is one loop or loop body of the source function it is named after.
- `Search` and `Visit` only delegate to `Node`, so that a proof unfolds the search one level at a time. Together the three are one function, minimax on a board value.
- getBestMove's default argument `botSymbol = 'X'` is not modelled: the handler always passes the symbol.
- module.exports lines and the test of `test/index.test.js` and `test/calculadora.test.js` are not part of this model.
