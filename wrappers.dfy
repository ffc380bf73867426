/** Option and Result values used for the analysis' missing data and invalid outcomes. */
module Wrappers {

  /** A value that may be absent (an empty class has no mean, an event may match no class). */
  datatype Option<+T> = None | Some(value: T)

  /** The outcome of a computation that can fail with an error value. */
  datatype Result<+T, +E> = Success(value: T) | Failure(error: E)
}
