/** Optional values and results with an error, as used throughout the model. */
module Wrappers {

  /** A value that may be absent (JavaScript `undefined` or a missing element). */
  datatype Option<+T> = None | Some(value: T)

  /** The outcome of a step that can stop with an error message. */
  datatype Result<+T, +E> = Success(value: T) | Failure(error: E)
}
