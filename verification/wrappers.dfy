/** Option and Result, the failure-compatible wrappers the rest of the model
    uses for Python's `None` and for raised exceptions. */
module Wrappers {

  /** An optional value: Python's `X | None` argument. */
  datatype Option<+T> = None | Some(value: T)

  /** Either a value or a raised error; usable with `:-`. */
  datatype Result<+T, +E> = Success(value: T) | Failure(error: E) {

    predicate IsFailure() {
      Failure?
    }

    function PropagateFailure<U>(): Result<U, E>
      requires Failure?
    {
      Failure(error)
    }

    function Extract(): T
      requires Success?
    {
      value
    }
  }
}
