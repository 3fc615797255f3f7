/** Optional values and success-or-error results shared by the modules below. */
module Wrappers {

  /** A value that may be absent (JavaScript's `undefined`, a parse that failed). */
  datatype Option<+T> = None | Some(value: T)

  /** The outcome of an operation that either returns a value or throws an error. */
  datatype Result<+R, +E> = Success(value: R) | Failure(error: E)
}
