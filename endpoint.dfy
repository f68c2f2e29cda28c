/**
 * The completion endpoint `POST {base}/chat/completions`, seen as the outcome
 * a stage observes, and the errors the stages raise.
 */
module Endpoint {
  import opened Wrappers

  /**
   * What one request to the completion endpoint yields:
   * - `Reply(content)`: a 2xx response whose JSON body has `choices[0].message`;
   *   `content` is `message.content`, which may be absent or `null`;
   * - `NoChoice`: a 2xx JSON body without `choices[0].message`, so reading
   *   `.content` throws a `TypeError`;
   * - `HttpError(status)`: a response with `ok == false`;
   * - `FetchFailed`: `fetch` itself rejects;
   * - `BodyNotJson`: `response.json()` rejects.
   */
  /** A `message.content` value: absent (`undefined`), `null`, or a string. */
  datatype Content = Absent | Null | Str(text: string)

  datatype Completion =
    | Reply(content: Content)
    | NoChoice
    | HttpError(status: int)
    | FetchFailed
    | BodyNotJson

  /** The errors the stages propagate to their caller. */
  datatype Failure =
    | ConfigMissing
    | TokenBudgetExceeded(total: int)
    | HttpStatus(status: int)
    | NetworkFailure
    | MalformedBody
    | TypeError

  /** The error a stage rethrows when the request itself fails before a body is read. */
  function TransportFailure(c: Completion): (e: Failure)
    requires c.HttpError? || c.FetchFailed? || c.BodyNotJson?
    ensures c.HttpError? <==> e.HttpStatus?
    ensures c.HttpError? ==> e.status == c.status
    ensures c.FetchFailed? <==> e == NetworkFailure
    ensures c.BodyNotJson? <==> e == MalformedBody
  {
    match c
    case HttpError(status) => HttpStatus(status)
    case FetchFailed => NetworkFailure
    case BodyNotJson => MalformedBody
  }

  /**
   * The string `JSON.parse` sees for `message.content`: its argument is
   * converted with `String(...)`, so an absent content becomes `"undefined"`
   * and a `null` one `"null"`.
   */
  function ParseInput(content: Content): string {
    match content
    case Str(s) => s
    case Absent => "undefined"
    case Null => "null"
  }

  /**
   * The content as something string methods can be called on: only a string
   * content is; `undefined.match` and `null.trim` alike throw a `TypeError`.
   */
  function StringContent(content: Content): Option<string> {
    match content
    case Str(s) => Some(s)
    case _ => None
  }
}
