/** Failure-compatible wrappers shared by every module of the model. */
module Wrappers {

  /** Go's `(T, bool)` lookups and nil-able values. */
  datatype Option<+T> = None | Some(value: T)

  /** Go's `(T, error)` results: the error path becomes `Failure`. */
  datatype Result<+T, +E> = Success(value: T) | Failure(error: E) {
    predicate IsFailure() { Failure? }

    function PropagateFailure<U>(): Result<U, E>
      requires Failure?
    {
      Failure(error)
    }

    function Extract(): T
      requires Success?
    {
      value
    }
  }
}
