/** The parts of net/http and encoding/json that the handlers produce: a status and a body. */
module Http {
  import opened Base

  const STATUS_OK := 200
  const STATUS_CREATED := 201
  const STATUS_BAD_REQUEST := 400
  const STATUS_UNAUTHORIZED := 401
  const STATUS_INTERNAL_SERVER_ERROR := 500

  /** A JSON value as encoding/json writes it; object members keep their order.
      A UUID and a time are leaves whose text form is the library's business. */
  datatype Json =
    | JString(s: string)
    | JUuid(id: Uuid)
    | JTime(t: Time)
    | JObject(members: seq<(string, Json)>)

  /** The member names of an object, in order; no names for any other value. */
  function Keys(j: Json): seq<string> {
    match j
    case JObject(members) => seq(|members|, i requires 0 <= i < |members| => members[i].0)
    case _ => []
  }

  /** A response body: plain text (http.Error) or an encoded JSON value. */
  datatype Body = Text(text: string) | JsonBody(value: Json)

  datatype Response = Response(status: int, body: Body)

  /** http.Error: the message followed by a newline, as plain text, with the given status. */
  function Error(message: string, status: int): Response {
    Response(status, Text(message + "\n"))
  }
}
