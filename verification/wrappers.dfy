/** The failure-carrying shapes that the Go code spells as `(value, error)` pairs. */
module Wrappers {

  /** A value that may be absent (a nil error, a missing header). */
  datatype Option<+T> = None | Some(value: T)

  /** A value or the error that replaced it. */
  datatype Result<+T, +E> = Ok(value: T) | Err(error: E)
}
