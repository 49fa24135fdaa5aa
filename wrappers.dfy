/** Failure-aware result types shared by every module of the model. */
module Wrappers {

  /** A value that may be absent: `null`/`undefined` in JavaScript, `None` in Python. */
  datatype Option<+T> = None | Some(value: T)

  /** The outcome of an operation that either returns a value or raises an error. */
  datatype Result<+T, +E> = Ok(value: T) | Err(error: E)
}
