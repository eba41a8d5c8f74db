/** Failure-compatible value types shared by the model. */
module Wrappers {

  /** A value that may be absent; `URLSearchParams.get` answers `null` as `None`. */
  datatype Option<+T> = None | Some(value: T)

  /** The outcome of an operation that can throw: `Failure` carries the exception. */
  datatype Result<+R, +E> = Success(value: R) | Failure(error: E)
}
