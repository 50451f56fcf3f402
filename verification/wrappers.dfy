/** Failure-carrying datatypes shared by the whole model. */
module Wrappers {

  /** A Python value that may be `None`. */
  datatype Option<+T> = None | Some(value: T)

  /** A call that either returns a value or raises an error. */
  datatype Result<+T, +E> = Ok(value: T) | Err(error: E)

  /** A call that returns `None` on success or raises an error. */
  datatype Outcome<+E> = Pass | Fail(error: E)
}
