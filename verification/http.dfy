/** What an endpoint sends back: a status code and a body, and the database it leaves. */
module Http {
  import opened Models

  const OK: int := 200
  const CREATED: int := 201
  const NO_CONTENT: int := 204
  const BAD_REQUEST: int := 400
  const NOT_FOUND: int := 404
  const UNPROCESSABLE: int := 422

  /** A response body: the serialised value, an error `detail`, the
      request-body validation messages, or nothing. */
  datatype Payload<+T> = Json(value: T) | Detail(message: string) | Invalid(messages: seq<string>) | Empty

  datatype Reply<+T> = Reply(status: int, payload: Payload<T>)

  /** A reply and the database after the request. */
  datatype Exchange<+T> = Exchange(reply: Reply<T>, db: Db)
}
