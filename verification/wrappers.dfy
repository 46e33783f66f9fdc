/** Failure-carrying return types used throughout the model. */
module Wrappers {

  /** A value that may be absent: JavaScript's `undefined` for a lookup that found nothing. */
  datatype Option<+T> = None | Some(value: T)

  /** The outcome of an operation that may throw: `Failure` carries the error it throws. */
  datatype Result<+R, +E> = Success(value: R) | Failure(error: E)
}
