/** Failure-carrying result types shared by the modules of the model. */
module Wrappers {

  /** A value that may be absent: Python's `None` where the source passes "nothing". */
  datatype Option<+T> = None | Some(value: T)

  /** The outcome of an operation that can raise: `Ok` carries the value, `Err` the exception. */
  datatype Result<+T, +E> = Ok(value: T) | Err(error: E)
}
