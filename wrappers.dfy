/** The two failure-carrying wrappers used by every other module. */
module Wrappers {

  /** A value that may be missing: the model of a null cell, of a Python `None`. */
  datatype Option<+T> = None | Some(value: T)

  /** The outcome of an operation that either yields a value or fails with an error. */
  datatype Result<+T, +E> = Ok(value: T) | Err(error: E)
}
