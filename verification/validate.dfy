/** The `validate` middleware: turn the validation chain's errors into a 422 `ApiError`. */
module Validation {
  import opened Base
  import opened ApiErrors

  /** A validation failure: one on a named request field, or one of another kind. */
  datatype ValidationError =
    | FieldError(path: string, msg: string)
    | OtherError(msg: string)

  /** The middleware's outcome: call `next()`, or throw. */
  datatype Gate = Next | Throw(error: ApiError)

  const InvalidDataMessage := "Received data is not valid"

  /** One `{ [path]: msg }` or `{ general: msg }` entry per error, in the original order. */
  function ExtractErrors(errs: seq<ValidationError>): (r: seq<ErrorEntry>)
    ensures |r| == |errs|
    ensures forall i :: 0 <= i < |errs| && errs[i].FieldError? ==>
              r[i] == ErrorEntry(errs[i].path, errs[i].msg)
    ensures forall i :: 0 <= i < |errs| && errs[i].OtherError? ==>
              r[i] == ErrorEntry("general", errs[i].msg)
  {
    if |errs| == 0 then []
    else
      var head := match errs[0]
        case FieldError(p, m) => ErrorEntry(p, m)
        case OtherError(m) => ErrorEntry("general", m);
      [head] + ExtractErrors(errs[1..])
  }

  /** `validate(req, res, next)`: continue iff there are no errors, otherwise a 422 whose
      `errors` list is the extracted one. */
  function Validate(errs: seq<ValidationError>, capturedStack: string): (r: Gate)
    ensures r.Next? <==> errs == []
    ensures r.Throw? ==> r.error.statusCode == 422
                         && r.error.message == InvalidDataMessage
                         && r.error.errors == ExtractErrors(errs)
                         && !r.error.success
  {
    if errs == [] then Next
    else Throw(NewApiError(422, Some(InvalidDataMessage), Some(ExtractErrors(errs)), None, capturedStack))
  }

  /** Extraction works error by error: the entries of a concatenation are the
      concatenation of the entries. */
  lemma {:induction false} ExtractErrorsAppend(a: seq<ValidationError>, b: seq<ValidationError>)
    ensures ExtractErrors(a + b) == ExtractErrors(a) + ExtractErrors(b)
  {
    var l := ExtractErrors(a + b);
    var r := ExtractErrors(a) + ExtractErrors(b);
    assert |l| == |r|;
    forall i | 0 <= i < |l| ensures l[i] == r[i] {
      if i < |a| {
        assert (a + b)[i] == a[i];
      } else {
        assert (a + b)[i] == b[i - |a|];
      }
    }
  }
}
