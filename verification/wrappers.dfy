/** Failure-compatible wrappers used across the model. */
module Wrappers {

  /** An optional value. */
  datatype Option<+T> = None | Some(value: T)

  /** Either a value or the reason the operation was refused. */
  datatype Result<+T, +E> = Success(value: T) | Failure(error: E)
}
