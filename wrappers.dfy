/** Failure-carrying values shared by every module of the model. */
module Wrappers {

  /** A value that may be absent: Python's `None` or a dictionary entry that is missing. */
  datatype Option<+T> = None | Some(value: T)

  /** The outcome of an operation that the source ends by returning a value or by raising. */
  datatype Result<+T, +E> = Ok(value: T) | Err(error: E)
}
