/** Failure-free wrappers shared by the other modules. */
module Wrappers {

  /** A value that may be missing: SQL NULL, a Go nil pointer or a map miss. */
  datatype Option<+T> = None | Some(value: T)

  /** A Go `(value, error)` pair. */
  datatype Result<+T, +E> = Ok(value: T) | Err(error: E)
}
