/** Failure-carrying datatypes shared by the whole model. */
module Wrappers {

  /** An optional value: a foreign parser that can fail, an unset variable. */
  datatype Option<+T> = None | Some(value: T)

  /** A value or the error that prevented computing it. */
  datatype Result<+T, +E> = Success(value: T) | Failure(error: E)

  /** The outcome of an action that returns nothing but may fail. */
  datatype Outcome<+E> = Pass | Fail(error: E)
}
