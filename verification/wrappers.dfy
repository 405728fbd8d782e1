/** Optional values and results with an error, shared by the other modules. */
module Wrappers {

  /** A value that may be missing: Python's `X | None`. */
  datatype Option<+T> = None | Some(value: T)

  /** The outcome of an operation that either returns a value or raises an error. */
  datatype Result<+R, +E> = Success(value: R) | Failure(error: E)
}
