/** Option and Result, the two ways the script reports "no value" and
    "this failed": Python's `None` and a raised or printed error. */
module Wrappers {

  datatype Option<+T> = None | Some(value: T)

  /** A Result is failure-compatible, so methods can propagate with `:-`. */
  datatype Result<+R, +E> = Success(value: R) | Failure(error: E) {

    predicate IsFailure() {
      Failure?
    }

    function PropagateFailure<U>(): Result<U, E>
      requires Failure?
    {
      Failure(error)
    }

    function Extract(): R
      requires Success?
    {
      value
    }
  }
}
