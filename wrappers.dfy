/** Optional values and results used throughout the model. */
module Wrappers {

  /** A value that may be absent (Go's "comma ok" results). */
  datatype Option<+T> = None | Some(value: T)

  /** Either a value or an error (Go's `(T, error)` results). */
  datatype Result<+T, +E> = Success(value: T) | Failure(error: E)
}
