/** The `ApiError` record every handler throws and the error handler answers with. */
module ApiErrors {
  import opened Base

  /** One entry of an error's `errors` list: the object `{ [key]: msg }`. */
  datatype ErrorEntry = ErrorEntry(key: string, msg: string)

  /** An `ApiError`. `data` is JSON `null` when `None`; `stack` is the error's stack trace. */
  datatype ApiError = ApiError(
    statusCode: int,
    message: string,
    errors: seq<ErrorEntry>,
    stack: string,
    success: bool,
    data: Option<string>)

  const DefaultMessage := "Something went wrong"

  /** `new ApiError(statusCode, message?, errors?, stack?)`. An argument left `undefined`
      takes its default (`"Something went wrong"`, `[]`, `""`); an empty `stack` makes the
      runtime capture one, which is the `capturedStack` parameter here. */
  function NewApiError(
    statusCode: int,
    message: Option<string>,
    errors: Option<seq<ErrorEntry>>,
    stack: Option<string>,
    capturedStack: string): (e: ApiError)
    ensures e.statusCode == statusCode
    ensures !e.success && e.data == None
    ensures message == None ==> e.message == DefaultMessage
    ensures message != None ==> e.message == message.value
    ensures errors == None ==> e.errors == []
    ensures errors != None ==> e.errors == errors.value
    ensures Truthy(stack) ==> e.stack == stack.value
    ensures !Truthy(stack) ==> e.stack == capturedStack
  {
    var msg := message.GetOr(DefaultMessage);
    var errs := errors.GetOr([]);
    var st := stack.GetOr("");
    ApiError(statusCode, msg, errs, if st != "" then st else capturedStack, false, None)
  }

  /** The error a handler throws with `throw new ApiError(status, message)`. */
  function FromHttpError(e: HttpError, capturedStack: string): (r: ApiError)
    ensures r.statusCode == e.status && r.message == e.message
    ensures r.errors == [] && !r.success
  {
    NewApiError(e.status, Some(e.message), None, None, capturedStack)
  }
}
