/** Shared value types: an optional value (JavaScript's `undefined`/`null` versus a value),
    the (status, message) pair an `ApiError` carries, and the result of a handler step. */
module Base {

  /** `None` stands for `undefined` or `null`, `Some(v)` for a present value. */
  datatype Option<+T> = None | Some(value: T) {

    /** The value, or `default` when absent (JavaScript's `x ?? default`). */
    function GetOr(default: T): T {
      match this
      case Some(v) => v
      case None => default
    }
  }

  /** The HTTP status and message of an `ApiError` thrown by a handler or middleware. */
  datatype HttpError = HttpError(status: int, message: string)

  /** Either the handler's value or the error it throws. */
  datatype Result<+T> = Ok(value: T) | Err(error: HttpError)

  /** JavaScript truthiness of an optional string: present and non-empty. */
  predicate Truthy(s: Option<string>) {
    s.Some? && s.value != ""
  }
}
