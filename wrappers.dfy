/** Failure-carrying values shared by the modules of the model. */
module Wrappers {

  /** A value that may be missing. */
  datatype Option<+T> = None | Some(value: T)

  /** The outcome of an operation that the source ends with a thrown exception. */
  datatype Result<+T, +E> = Success(value: T) | Failure(error: E)
}
