/** Success/failure carriers used in place of Python's None and exceptions. */
module Wrappers {

  /** Python's `None` versus a present value. */
  datatype Option<+T> = None | Some(value: T)

  /** A value, or the exception the source would raise instead of returning it. */
  datatype Result<+T, +E> = Ok(value: T) | Err(error: E)

  /** Completion of a statement that returns nothing, or the exception it raises. */
  datatype Outcome<+E> = Pass | Fail(error: E)
}
