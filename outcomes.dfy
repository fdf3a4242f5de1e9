/** Option and Result, the failure-compatible wrappers used throughout the model. */
module Outcomes {

  /** A value that may be absent: stands for a .NET reference that may be null. */
  datatype Option<+T> = None | Some(value: T)

  /** The value of an operation or the exception it throws. */
  datatype Result<+T, +E> = Success(value: T) | Failure(error: E) {

    predicate IsFailure() {
      Failure?
    }

    function PropagateFailure<U>(): Result<U, E>
      requires Failure?
    {
      Failure(error)
    }

    function Extract(): T
      requires Success?
    {
      value
    }
  }
}
