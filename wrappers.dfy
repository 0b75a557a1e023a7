/** Optional values and results with an error, shared by the other modules. */
module Wrappers {

  /** A value that may be absent (Python's `None`). */
  datatype Option<+T> = None | Some(value: T)

  /** The outcome of an operation that may fail with an error of type `E`
      (a Python exception the caller would see). */
  datatype Result<+T, +E> = Success(value: T) | Failure(error: E)
}
