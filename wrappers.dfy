/** Optional values and success-or-error results, shared by every module. */
module Wrappers {

  /** A value that may be absent (Python's `None`). */
  datatype Option<+T> = None | Some(value: T)

  /** The outcome of a step that may raise: a value, or the error it raises. */
  datatype Result<+R, +E> = Success(value: R) | Failure(error: E)
}
