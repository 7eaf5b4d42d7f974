/** Optional values and success/failure results used in place of Python's
    `None` returns and raised exceptions. */
module Wrappers {

  /** A value that may be absent (Python's `None`). */
  datatype Option<+T> = None | Some(value: T)

  /** The outcome of an operation that either produces a value or fails
      with an error the caller can inspect. */
  datatype Result<+T, +E> = Success(value: T) | Failure(error: E)
}
