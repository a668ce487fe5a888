/** Optional values and results, as used throughout the model. */
module Wrappers {

  /** A value that may be absent (a JavaScript `undefined`). */
  datatype Option<+T> = None | Some(value: T)

  /** The outcome of a step that either yields a value or an error. */
  datatype Result<+T, +E> = Success(value: T) | Failure(error: E)
}
