/** The optional value and the success-or-error value used throughout the model. */
module Wrappers {

  /** A value that may be missing: the model of JavaScript's `null`. */
  datatype Option<+T> = None | Some(value: T)

  /** The outcome of a guarded operation: a value or the reason it was refused. */
  datatype Result<+T, +E> = Success(value: T) | Failure(error: E)
}
