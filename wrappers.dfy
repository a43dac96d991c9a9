/** Option, Result and Outcome: the values that replace nulls and exceptions in this model. */
module Wrappers {

  /** A value or nothing; `None` stands for a C# `null` reference. */
  datatype Option<+T> = None | Some(value: T)

  /** The value of an operation that returns something or throws. */
  datatype Result<+R, +E> = Success(value: R) | Failure(error: E)

  /** The value of an operation that returns nothing (`Task`) or throws. */
  datatype Outcome<+E> = Pass | Fail(error: E)
}
