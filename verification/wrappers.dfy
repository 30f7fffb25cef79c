/** Failure-carrying wrappers shared by the other modules. */
module Wrappers {

  /** A value that may be absent: a lookup that Python would answer with an exception. */
  datatype Option<+T> = None | Some(value: T)

  /** A value or the reason it could not be produced. */
  datatype Result<+T, +E> = Ok(value: T) | Err(error: E)
}
