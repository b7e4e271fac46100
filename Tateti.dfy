/**
 * The 3x3 random-move server of tateti.js: the `board` parameter must parse as a JSON
 * array of 9 cells; the answer is one of the indices whose cell is exactly 0, picked with
 * Math.random.
 */
module Tateti {
  import opened Wrappers
  import opened Request

  const Cells := 9

  const InvalidBoard := "Parámetro board inválido. Debe ser un array JSON."
  const NotNineCells := "El tablero debe ser un array de 9 posiciones."
  const NoMoves := "No hay movimientos disponibles."

  /** A strictly increasing sequence of indices. */
  predicate Increasing(s: seq<int>) {
    forall j, k :: 0 <= j < k < |s| ==> s[j] < s[k]
  }

  /** posicionesVacias: the indices of the cells that are exactly the number 0, in order. */
  function EmptyPositions(board: seq<Json>): (r: seq<int>)
    ensures forall i :: i in r <==> 0 <= i < |board| && board[i] == JNumber(0.0)
    ensures Increasing(r)
  {
    if board == [] then []
    else
      var n := |board| - 1;
      var init := EmptyPositions(board[..n]);
      assert forall i :: 0 <= i < n ==> board[..n][i] == board[i];
      assert forall j :: 0 <= j < |init| ==> init[j] < n by {
        forall j | 0 <= j < |init| ensures init[j] < n {
          assert init[j] in init;
        }
      }
      if board[n] == JNumber(0.0) then init + [n] else init
  }

  /** The last element of an increasing sequence is its largest, and the elements before it
      are exactly the smaller members. */
  lemma IncreasingInit(a: seq<int>, i: int)
    requires Increasing(a) && a != []
    ensures i in a ==> i <= a[|a| - 1]
    ensures i in a[..|a| - 1] <==> i in a && i < a[|a| - 1]
  {
    if i in a {
      var k :| 0 <= k < |a| && a[k] == i;
      if k < |a| - 1 {
        assert a[..|a| - 1][k] == i;
      }
    }
  }

  /** Two increasing sequences with the same members are the same sequence. */
  lemma {:induction false} IncreasingUnique(a: seq<int>, b: seq<int>)
    requires Increasing(a) && Increasing(b)
    requires forall i :: i in a <==> i in b
    ensures a == b
  {
    if a != [] {
      assert a[|a| - 1] in a;
    }
    if b != [] {
      assert b[|b| - 1] in b;
    }
    if a != [] {
      var x, y := a[|a| - 1], b[|b| - 1];
      IncreasingInit(a, y);
      IncreasingInit(b, x);
      var a', b' := a[..|a| - 1], b[..|b| - 1];
      forall i ensures i in a' <==> i in b' {
        IncreasingInit(a, i);
        IncreasingInit(b, i);
      }
      IncreasingUnique(a', b');
      assert a == a' + [x] && b == b' + [y];
    }
  }

  /** posicionesVacias is the one increasing list of exactly the indices holding 0, so it
      agrees with any other way of listing them in order. */
  lemma EmptyPositionsUnique(board: seq<Json>, r: seq<int>)
    requires Increasing(r)
    requires forall i :: i in r <==> 0 <= i < |board| && board[i] == JNumber(0.0)
    ensures EmptyPositions(board) == r
  {
    IncreasingUnique(EmptyPositions(board), r);
  }

  /** posicionesVacias on an empty 3x3 board lists every index. */
  lemma EmptyPositionsAllEmpty()
    ensures EmptyPositions(Numbers([0.0, 0.0, 0.0, 0.0, 0.0, 0.0, 0.0, 0.0, 0.0])) == [0, 1, 2, 3, 4, 5, 6, 7, 8]
  {
    EmptyPositionsUnique(Numbers([0.0, 0.0, 0.0, 0.0, 0.0, 0.0, 0.0, 0.0, 0.0]), [0, 1, 2, 3, 4, 5, 6, 7, 8]);
  }

  /** posicionesVacias lists nothing on a board covered with marks. */
  lemma EmptyPositionsNoneEmpty()
    ensures EmptyPositions(Numbers([1.0, 2.0, 1.0, 2.0, 1.0, 2.0, 1.0, 2.0, 1.0])) == []
  {
    EmptyPositionsUnique(Numbers([1.0, 2.0, 1.0, 2.0, 1.0, 2.0, 1.0, 2.0, 1.0]), []);
  }

  /** posicionesVacias lists only the cells holding 0 of a mixed board. */
  lemma EmptyPositionsSomeEmpty()
    ensures EmptyPositions(Numbers([1.0, 0.0, 2.0, 0.0, 1.0, 2.0, 0.0, 2.0, 1.0])) == [1, 3, 6]
  {
    EmptyPositionsUnique(Numbers([1.0, 0.0, 2.0, 0.0, 1.0, 2.0, 0.0, 2.0, 1.0]), [1, 3, 6]);
  }

  /** posicionesVacias of an empty array is empty. */
  lemma EmptyPositionsEmpty()
    ensures EmptyPositions([]) == []
  {
  }

  /** posicionesVacias ignores numbers other than 0. */
  lemma EmptyPositionsOtherNumbers()
    ensures EmptyPositions(Numbers([1.0, 2.0, 3.0, 4.0, 5.0, 6.0, 7.0, 8.0, 9.0])) == []
  {
    EmptyPositionsUnique(Numbers([1.0, 2.0, 3.0, 4.0, 5.0, 6.0, 7.0, 8.0, 9.0]), []);
  }

  /** posicionesVacias finds a single 0 in the last cell. */
  lemma EmptyPositionsLastEmpty()
    ensures EmptyPositions(Numbers([1.0, 2.0, 1.0, 2.0, 1.0, 2.0, 1.0, 2.0, 0.0])) == [8]
  {
    EmptyPositionsUnique(Numbers([1.0, 2.0, 1.0, 2.0, 1.0, 2.0, 1.0, 2.0, 0.0]), [8]);
  }

  /** A JSON array of numbers. */
  function Numbers(xs: seq<real>): (r: seq<Json>)
    ensures |r| == |xs| && forall i :: 0 <= i < |xs| ==> r[i] == JNumber(xs[i])
  {
    seq(|xs|, i requires 0 <= i < |xs| => JNumber(xs[i]))
  }

  /** elegirPosicion: the element at `floor(random * length)`, where `random` is the value
      Math.random returned, in [0, 1). On an empty list the index is out of range and the
      result is undefined (`None`). */
  function ChoosePosition(positions: seq<int>, random: real): (p: Option<int>)
    requires 0.0 <= random < 1.0
    ensures p.Some? <==> positions != []
    ensures p.Some? ==> p.value in positions
  {
    var n := |positions| as real;
    var k := (random * n).Floor;
    assert positions != [] ==> 0 <= k < |positions| by {
      if positions != [] {
        ScaledBelow(random, |positions|);
        assert random * n < n;
      }
    }
    if 0 <= k < |positions| then Some(positions[k]) else None
  }

  /** A value of [0, 1) scaled by a positive length stays in [0, length). */
  lemma {:induction false} ScaledBelow(random: real, n: nat)
    requires 0.0 <= random < 1.0 && n > 0
    ensures 0.0 <= random * n as real < n as real
  {
    if n > 1 {
      ScaledBelow(random, n - 1);
      assert random * n as real == random * (n - 1) as real + random;
    }
  }

  /** Every position can be chosen: some value of Math.random picks it. */
  lemma ChoosePositionReaches(positions: seq<int>, k: nat)
    requires k < |positions|
    ensures ChoosePosition(positions, k as real / |positions| as real) == Some(positions[k])
  {
    Fraction(k, |positions|);
  }

  /** k / n is a value of [0, 1) that scales back to k. */
  lemma Fraction(k: nat, n: nat)
    requires k < n
    ensures 0.0 <= k as real / n as real < 1.0
    ensures (k as real / n as real) * n as real == k as real
  {
  }

  /** The checks of the handler: the parameter must parse as JSON (an absent one makes
      JSON.parse throw too) and be an array of 9 cells. */
  function Admit(board: BoardParam, parse: string -> Option<Json>): Result<seq<Json>, Reply> {
    var parsed: Option<Json> := if board.Missing? then None else parse(board.s);
    match parsed
    case None => Err(Rejected(BadRequest, InvalidBoard))
    case Some(JArray(items)) =>
      if |items| == Cells then Ok(items) else Err(Rejected(BadRequest, NotNineCells))
    case Some(_) => Err(Rejected(BadRequest, NotNineCells))
  }

  /** GET /move on an admitted board: a 400 when no cell is 0, else a random empty position. */
  function Play(cells: seq<Json>, random: real): (reply: Reply)
    requires 0.0 <= random < 1.0
    ensures reply.Played? <==> exists i :: 0 <= i < |cells| && cells[i] == JNumber(0.0)
    ensures reply.Played? ==> 0 <= reply.move < |cells| && cells[reply.move] == JNumber(0.0)
    ensures reply.Rejected? ==> reply == Rejected(BadRequest, NoMoves)
  {
    var positions := EmptyPositions(cells);
    if positions == [] then Rejected(BadRequest, NoMoves)
    else Played(ChoosePosition(positions, random).value)
  }

  /** GET /move: the checks, then the random empty position. */
  function HandleMove(board: BoardParam, parse: string -> Option<Json>, random: real): (reply: Reply)
    requires 0.0 <= random < 1.0
    ensures Admit(board, parse).Err? ==> reply == Admit(board, parse).error
    ensures Admit(board, parse).Ok? ==> reply == Play(Admit(board, parse).value, random)
  {
    match Admit(board, parse)
    case Err(e) => e
    case Ok(cells) => Play(cells, random)
  }

  /** Only a parsed array of 9 cells passes; anything else is a 400 whose message tells
      an unparsable parameter from a value that is not 9 cells. */
  lemma AdmitSpec(board: BoardParam, parse: string -> Option<Json>)
    ensures Admit(board, parse).Ok? <==>
      board.Text? && parse(board.s).Some? && parse(board.s).value.JArray? && |parse(board.s).value.items| == Cells
    ensures Admit(board, parse).Err? ==> Admit(board, parse).error.status == BadRequest
    ensures Admit(board, parse).Err? ==>
      (Admit(board, parse).error.error == InvalidBoard <==> board.Missing? || parse(board.s).None?)
  {
  }
}
