/** Option and Result, used where the Java code returns null-like "nothing"
    or throws an exception. */
module Wrappers {
  datatype Option<+T> = None | Some(value: T)

  datatype Result<+T, +E> = Success(value: T) | Failure(error: E)
}
