/** Optional values and results with an error, as the register store needs them. */
module Wrappers {

  /** A value that may be absent, such as the content a write mirrors to the clipboard. */
  datatype Option<+T> = None | Some(value: T)

  /** The outcome of an operation that may throw: a value or the error it threw. */
  datatype Result<+R, +E> = Success(value: R) | Failure(error: E)
}
