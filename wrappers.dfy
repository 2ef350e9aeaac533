/** Failure-carrying values used in place of Python's `None` and exceptions. */
module Wrappers {

  /** Python's `None` or a value. */
  datatype Option<+T> = None | Some(value: T)

  /** The outcome of an operation that either returns a value or raises. */
  datatype Result<+R, +E> = Ok(value: R) | Err(error: E)

  /** The outcome of an operation that returns nothing or raises. */
  datatype Outcome<+E> = Pass | Fail(error: E)
}
