/** The central Express error handler: every thrown error becomes an `ApiError`, and the
    response carries that error's status and fields. */
module ErrorHandling {
  import opened Base
  import opened ApiErrors

  /** What reaches the error handler: an `ApiError`, or any other thrown `Error`, seen
      through the fields the handler reads (`statusCode` may be absent or falsy). */
  datatype Thrown =
    | Api(error: ApiError)
    | Other(
        statusCode: Option<int>,
        isMongooseError: bool,
        message: string,
        errors: Option<seq<ErrorEntry>>,
        stack: Option<string>)

  /** The response body, plus the HTTP status it is sent with. */
  datatype ErrorResponse = ErrorResponse(
    status: int,
    statusCode: int,
    data: Option<string>,
    success: bool,
    errors: seq<ErrorEntry>,
    message: string,
    stack: Option<string>)

  /** `err instanceof ApiError ? err : new ApiError(...)`. */
  function Normalise(err: Thrown, capturedStack: string): (e: ApiError)
    ensures err.Api? ==> e == err.error
    ensures err.Other? && err.statusCode.Some? && err.statusCode.value != 0 ==>
              e.statusCode == err.statusCode.value
    ensures err.Other? && (err.statusCode.None? || err.statusCode.value == 0) ==>
              e.statusCode == (if err.isMongooseError then 400 else 500)
    ensures err.Other? ==> e.message == (if err.message == "" then DefaultMessage else err.message)
    ensures err.Other? ==> e.message != ""
    ensures err.Other? && err.errors.None? ==> e.errors == []
    ensures err.Other? && err.errors.Some? ==> e.errors == err.errors.value
    ensures err.Other? ==> !e.success && e.data.None?
  {
    match err
    case Api(e) => e
    case Other(code, mongoose, msg, errs, stack) =>
      var status := if code.Some? && code.value != 0 then code.value
                    else if mongoose then 400 else 500;
      var m := if msg != "" then msg else DefaultMessage;
      NewApiError(status, Some(m), Some(errs.GetOr([])), stack, capturedStack)
  }

  /** `errorHandler(err, req, res, next)` with `NODE_ENV` as `nodeEnv`. */
  function ErrorHandler(err: Thrown, nodeEnv: Option<string>, capturedStack: string): (r: ErrorResponse)
    ensures var e := Normalise(err, capturedStack);
            && r.status == e.statusCode
            && r.statusCode == e.statusCode
            && r.message == e.message
            && r.errors == e.errors
            && r.success == e.success
            && r.data == e.data
    ensures r.stack.Some? <==> nodeEnv == Some("development")
    ensures r.stack.Some? ==> r.stack.value == Normalise(err, capturedStack).stack
  {
    var e := Normalise(err, capturedStack);
    ErrorResponse(
      e.statusCode, e.statusCode, e.data, e.success, e.errors, e.message,
      if nodeEnv == Some("development") then Some(e.stack) else None)
  }

  /** Normalising is idempotent: an error that has been through the handler once comes
      back unchanged, and a handler's `ApiError` is answered with its own status. */
  lemma NormaliseIdempotent(err: Thrown, c1: string, c2: string)
    ensures Normalise(Api(Normalise(err, c1)), c2) == Normalise(err, c1)
    ensures err.Api? ==> ErrorHandler(err, None, c1).status == err.error.statusCode
  {
  }

  /** An error that is not an `ApiError` is answered with its own truthy status code, or
      else 400 for a database error and 500 otherwise, never with an empty message. */
  lemma OtherErrorStatus(err: Thrown, env: Option<string>, c: string)
    requires err.Other?
    ensures var r := ErrorHandler(err, env, c);
            && (r.status == 400 || r.status == 500 || Some(r.status) == err.statusCode)
            && r.message != ""
            && !r.success
  {
  }
}
