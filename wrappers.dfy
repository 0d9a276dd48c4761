/** Failure-carrying values used where the program raises an exception. */
module Wrappers {

  datatype Option<+T> = None | Some(value: T)

  /** A value, or the error the program would have raised instead. */
  datatype Result<+R, +E> = Ok(value: R) | Err(error: E)

  /** The outcome of an operation that returns nothing but may raise. */
  datatype Outcome<+E> = Pass | Fail(error: E)
}
