/** Failure-compatible wrappers shared by the whole model. */
module Wrappers {

  /** A value that may be absent. */
  datatype Option<+T> = None | Some(value: T)

  /** Either a value or an error, as a Go `(T, error)` pair is read by its callers. */
  datatype Result<+T, +E> = Success(value: T) | Failure(error: E)
}
