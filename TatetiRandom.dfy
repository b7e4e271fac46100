/**
 * The second 3x3 random-move server, tateti-random.js. It differs from tateti.js only in
 * its checks: an absent `board` parameter has a message of its own, and the messages are
 * written without accents. Its posicionesVacias and elegirPosicion compute what those of
 * tateti.js compute (the extra console.log aside), so the model shares them.
 */
module TatetiRandom {
  import opened Wrappers
  import opened Request
  import Tateti

  const MissingBoard := "Parametro board requerido. Debe enviarse como array JSON."
  const InvalidBoard := "Parametro board invalido. Debe ser un array JSON."

  /** The checks of the handler: the parameter must be present, parse as JSON and be an
      array of 9 cells. */
  function Admit(board: BoardParam, parse: string -> Option<Json>): Result<seq<Json>, Reply> {
    match board
    case Missing => Err(Rejected(BadRequest, MissingBoard))
    case Text(s) =>
      match parse(s)
      case None => Err(Rejected(BadRequest, InvalidBoard))
      case Some(JArray(items)) =>
        if |items| == Tateti.Cells then Ok(items) else Err(Rejected(BadRequest, Tateti.NotNineCells))
      case Some(_) => Err(Rejected(BadRequest, Tateti.NotNineCells))
  }

  /** Each failed check has its own 400; only a parsed array of 9 cells passes. */
  lemma AdmitSpec(board: BoardParam, parse: string -> Option<Json>)
    ensures Admit(board, parse).Ok? <==>
      board.Text? && parse(board.s).Some? && parse(board.s).value.JArray? && |parse(board.s).value.items| == Tateti.Cells
    ensures Admit(board, parse).Err? ==> Admit(board, parse).error.status == BadRequest
    ensures Admit(board, parse) == Err(Rejected(BadRequest, MissingBoard)) <==> board.Missing?
    ensures Admit(board, parse) == Err(Rejected(BadRequest, InvalidBoard)) <==> board.Text? && parse(board.s).None?
  {
  }

  /** Both servers admit the same boards and answer them alike; they differ only in the
      messages for a parameter that is absent or does not parse. */
  lemma SameAsTateti(board: BoardParam, parse: string -> Option<Json>)
    ensures Admit(board, parse).Ok? <==> Tateti.Admit(board, parse).Ok?
    ensures Admit(board, parse).Ok? ==> Admit(board, parse).value == Tateti.Admit(board, parse).value
    ensures board.Text? && parse(board.s).Some? ==> Admit(board, parse) == Tateti.Admit(board, parse)
  {
  }

  /** GET /move: the checks, then a random position among those holding 0. */
  function HandleMove(board: BoardParam, parse: string -> Option<Json>, random: real): (reply: Reply)
    requires 0.0 <= random < 1.0
    ensures Admit(board, parse).Err? ==> reply == Admit(board, parse).error
    ensures Admit(board, parse).Ok? ==> reply == Tateti.Play(Admit(board, parse).value, random)
    ensures reply.Played? ==>
      (Admit(board, parse).Ok? &&
       0 <= reply.move < |Admit(board, parse).value| && Admit(board, parse).value[reply.move] == JNumber(0.0))
  {
    match Admit(board, parse)
    case Err(e) => e
    case Ok(cells) => Tateti.Play(cells, random)
  }
}
