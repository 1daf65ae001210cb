/** Outcomes of the trivia API's request handlers: the four error kinds that
    have a registered error handler, the fixed JSON body each one sends, and
    the `try: ... except: abort(code)` shape that wraps most handler bodies. */
module Http {
  import opened Options

  /** The error kinds that have an error handler of their own. */
  datatype Error = BadRequest | NotFound | MethodNotAllowed | Unprocessable

  /** The HTTP status code of an error kind. */
  function Status(e: Error): (code: int)
    ensures 400 <= code < 500
  {
    match e
    case BadRequest => 400
    case NotFound => 404
    case MethodNotAllowed => 405
    case Unprocessable => 422
  }

  /** The fixed `message` text of an error kind. */
  function Message(e: Error): (m: string)
    ensures m != ""
  {
    match e
    case BadRequest => "bad request"
    case NotFound => "resource not found"
    case MethodNotAllowed => "method not allowed"
    case Unprocessable => "unprocessable"
  }

  /** The JSON body `{success, error, message}` of an error reply. */
  datatype ErrorBody = ErrorBody(success: bool, error: int, message: string)

  /** An error reply: its body and the status it is sent with. */
  datatype ErrorReply = ErrorReply(body: ErrorBody, status: int)

  /** The registered error handler for `e`. */
  function HandleError(e: Error): (r: ErrorReply)
    ensures !r.body.success
    ensures r.body.error == r.status
    ensures r.status in {400, 404, 405, 422}
  {
    ErrorReply(ErrorBody(false, Status(e), Message(e)), Status(e))
  }

  /** The error kind whose handler answers a given status, if any. */
  function ErrorForStatus(code: int): (r: Option<Error>)
    ensures r.Some? ==> Status(r.value) == code
  {
    if code == 400 then Some(BadRequest)
    else if code == 404 then Some(NotFound)
    else if code == 405 then Some(MethodNotAllowed)
    else if code == 422 then Some(Unprocessable)
    else None
  }

  /** Every error reply names, by its status, the error that produced it,
      and distinct errors send distinct messages. */
  lemma ErrorReplyIdentifiesError(e: Error, e': Error)
    ensures ErrorForStatus(HandleError(e).status) == Some(e)
    ensures e != e' ==> HandleError(e).body.message != HandleError(e').body.message
  {
  }

  /** How a handler body inside `try:` ends: it returns a value, it calls
      `abort(code)`, or some other exception is raised. */
  datatype Attempt<T> = Returned(value: T) | Aborted(error: Error) | Raised

  /** The reply of a handler: a success payload, or an error. */
  datatype Result<T> = Ok(value: T) | Err(error: Error)

  /** The bare `except: abort(code)` around a handler body: whatever went
      wrong inside, including an inner `abort` with another code, the
      handler answers with its own `code`. */
  function Except<T>(body: Attempt<T>, code: Error): (r: Result<T>)
    ensures r.Ok? <==> body.Returned?
    ensures r.Ok? ==> r.value == body.value
    ensures r.Err? ==> r.error == code
  {
    match body
    case Returned(v) => Ok(v)
    case Aborted(_) => Err(code)
    case Raised => Err(code)
  }
}
