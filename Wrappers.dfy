/** Failure-compatible wrappers used across the model. */
module Wrappers {

  /** A value that may be absent: a file that cannot be read, a pattern that does not match. */
  datatype Option<+T> = None | Some(value: T)

  /** A computation that either yields a value or fails with a reason. */
  datatype Result<+T, +E> = Success(value: T) | Failure(error: E)
}
