/**
 * What the three /move handlers (api/index.js, tateti.js, tateti-random.js) receive
 * and answer: the `board` query parameter, the JSON value JSON.parse makes of it,
 * and the reply.
 */
module Request {

  /** A JSON value. The handlers only look at arrays and at numbers; every other
      value (string, boolean, null, object) is `JOther`. */
  datatype Json = JNumber(x: real) | JArray(items: seq<Json>) | JOther

  /** The `board` query parameter: absent, or the text sent. */
  datatype BoardParam = Missing | Text(s: string)

  /** A reply: an error status with its message, or the chosen move. */
  datatype Reply = Rejected(status: int, error: string) | Played(move: int)

  const BadRequest := 400
  const ServerError := 500
}
