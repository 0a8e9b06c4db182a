/** Failure-compatible wrappers used across the model. */
module Wrappers {

  /** A value that may be absent (Python's `None`, or a `-inf` sentinel). */
  datatype Option<+T> = None | Some(value: T)

  /** The outcome of an operation that may raise an exception. */
  datatype Result<+T> = Success(value: T) | Failure(error: string)
}
