/** Go's nil-able pointers and `(value, error)` returns, as values. */
module Wrappers {

  /** A pointer that may be nil. */
  datatype Option<+T> = None | Some(value: T)

  /** A Go `error`, reduced to its message. */
  type Error = string

  /** A `(value, error)` return: the value only counts when the error is nil. */
  datatype Result<+T> = Ok(value: T) | Err(error: Error)
}
