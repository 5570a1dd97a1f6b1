/** Option and Result values used for the service's error returns. */
module Wrappers {

  datatype Option<+T> = None | Some(value: T)

  /** A Go `(value, error)` pair: either a value or an error message. */
  datatype Result<+T, +E> = Success(value: T) | Failure(error: E)
}
