/** Failure-compatible wrappers and the HTTP error shape shared by every handler. */
module Wrappers {

  /** A nullable value: `null`/`undefined` in the JavaScript source is `None`. */
  datatype Option<+T> = None | Some(value: T) {
    function GetOr(default: T): T {
      match this
      case Some(v) => v
      case None => default
    }
  }

  /** The outcome of a handler: a success value or an error. */
  datatype Result<+R, +E> = Success(value: R) | Failure(error: E) {
    predicate IsFailure() {
      Failure?
    }

    function PropagateFailure<U>(): Result<U, E>
      requires Failure?
    {
      Failure(error)
    }

    function Extract(): R
      requires Success?
    {
      value
    }
  }

  /** JavaScript truthiness of a string-or-null value: neither null nor empty. */
  predicate TruthyText(s: Option<string>) {
    s.Some? && s.value != ""
  }

  /** JavaScript truthiness of a number-or-null value: neither null nor 0. */
  predicate TruthyId(i: Option<int>) {
    i.Some? && i.value != 0
  }

  /** `x || null` on a number-or-null value. */
  function OrNull(i: Option<int>): (r: Option<int>)
    ensures r.Some? <==> TruthyId(i)
    ensures r.Some? ==> r == i
  {
    if TruthyId(i) then i else None
  }

  /** `s || fallback` on a string-or-null value. */
  function OrText(s: Option<string>, fallback: string): (r: string)
    ensures TruthyText(s) ==> r == s.value
    ensures !TruthyText(s) ==> r == fallback
  {
    if TruthyText(s) then s.value else fallback
  }

  /** An HTTP error reply: status code and the JSON `error` message. */
  datatype HttpError = HttpError(status: int, message: string)
}
