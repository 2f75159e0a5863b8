/** Option and Result, the failure-carrying values every store operation returns. */
module Wrappers {

  /** A value that may be missing: Java's `null` and `Optional.empty()`. */
  datatype Option<+T> = None | Some(value: T)

  /** Either the value an operation produced or the exception it raised. */
  datatype Result<+T, +E> = Success(value: T) | Failure(error: E) {

    predicate IsFailure() {
      Failure?
    }

    function PropagateFailure<U>(): Result<U, E>
      requires Failure?
    {
      Failure(error)
    }

    function Extract(): T
      requires Success?
    {
      value
    }
  }
}
