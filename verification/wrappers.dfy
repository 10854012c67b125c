/** Optional values and results with an error, shared by the scanner's modules. */
module Wrappers {

  /** A value that may be absent, as a dictionary key that may be missing. */
  datatype Option<+T> = None | Some(value: T)

  /** The outcome of a step that either produces a value or raises an error. */
  datatype Result<+T, +E> = Success(value: T) | Failure(error: E)
}
