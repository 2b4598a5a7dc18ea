/** Failure-compatible wrappers shared by the selector model. */
module Wrappers {

  /** A value that may be absent; Go's nil pointer is `None`. */
  datatype Option<+T> = None | Some(value: T)

  /** A value or the error that replaced it; Go's `(T, error)` pair. */
  datatype Result<+T, +E> = Ok(value: T) | Err(error: E)
}
