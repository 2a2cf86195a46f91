/** The HTTP-facing values shared by every route of the server: the shape of a
    query parameter as the router hands it over, JavaScript truthiness of such a
    value, the response a handler leaves behind, and the calls a handler makes
    into the generator and cleanup libraries. */
module Http {

  /** A query parameter: missing, given once (a string), or repeated (an array). */
  datatype QueryValue = Absent | Scalar(value: string) | Many(values: seq<string>)

  /** JavaScript falsiness of a query parameter: `undefined` and the empty
      string are falsy; every array, even an empty one, is truthy. */
  predicate Falsy(q: QueryValue)
  {
    q.Absent? || q == Scalar("")
  }

  /** The JSON (or text) body a handler assigns. */
  datatype Body =
    | ErrorBody(error: string)
    | VoicesBody(voices: seq<string>)
    | UrlBody(url: string)
    | TextBody(text: string)

  datatype Response = Response(status: int, body: Body)

  /** A call into a library whose code is not part of this model. */
  datatype Call = CleanVoices | GenerateTts(text: string, voice: string)

  /** What one request produced: the response and, in order, the library calls made. */
  datatype Handled = Handled(response: Response, calls: seq<Call>)

  /** A value that may be missing, such as an environment variable. */
  datatype Option<T> = None | Some(value: T)

  /** The outcome of a library call that returns nothing: it returns, or it throws
      an error carrying a message. */
  datatype Outcome = Pass | Fail(message: string)

  /** The outcome of a library call that returns a value or throws. */
  datatype Result<T> = Ok(value: T) | Err(message: string)

  /** Status Koa reports once a body has been assigned without setting a status. */
  const StatusOk := 200
  const StatusForbidden := 403
  const StatusServerError := 500
}
