/** Optional values and results, used across the model. */
module Wrappers {

  /** An optional value: Go's nil pointers and nil interfaces. */
  datatype Option<+T> = None | Some(value: T)

  /** A value or an error: Go's `(T, error)` return pairs. */
  datatype Result<+R, +E> = Success(value: R) | Failure(error: E)
}
