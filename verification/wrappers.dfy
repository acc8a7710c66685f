/** Failure-carrying wrappers shared by the model. */
module Wrappers {

  /** A value that may be absent (a Go nil pointer, a store reply with no document). */
  datatype Option<+T> = None | Some(value: T)

  /** Go's `(value, error)` pair: either a value, or an error carrying its message. */
  datatype Result<+T> = Ok(value: T) | Err(message: string)
}
