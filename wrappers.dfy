/** Optional values and error returns used across the model. */
module Wrappers {

  /** A value that may be absent: the source's `T | null`. */
  datatype Option<+T> = None | Some(value: T)

  /** The outcome of an operation that may throw: `Failure` carries the error message. */
  datatype Result<+R, +E> = Success(value: R) | Failure(error: E)
}
