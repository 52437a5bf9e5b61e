/** Option and Result: the model's stand-ins for C# null and for exceptions. */
module Wrappers {

  /** A value that may be missing; `None` plays the role of a C# `null` reference. */
  datatype Option<+T> = None | Some(value: T)

  /** The result of an operation that either returns a value or throws. */
  datatype Result<+T, +E> = Ok(value: T) | Err(error: E)

  /** The result of an operation that returns nothing but may throw. */
  datatype Outcome<+E> = Pass | Fail(error: E)
}
