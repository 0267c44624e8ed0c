/** Failure-compatible wrappers shared by the modules of this model. */
module Wrappers {

  /** A value that may be absent (a nil pointer or a nil error in Go). */
  datatype Option<+T> = None | Some(value: T)

  /** A value or the error that replaced it (Go's `(T, error)` return pair). */
  datatype Result<+T, +E> = Ok(value: T) | Err(error: E)
}
