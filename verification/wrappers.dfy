/** Failure-carrying values shared by the whole model. */
module Wrappers {

  datatype Option<+T> = None | Some(value: T)

  datatype Result<+T, +E> = Success(value: T) | Failure(error: E)

  /** The outcome of a step that returns nothing but may throw. */
  datatype Outcome<+E> = Pass | Fail(error: E)
}
