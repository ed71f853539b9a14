/** Option, Result and Outcome: the model's replacement for JavaScript's
    `undefined`/`null` optionals and for thrown exceptions. */
module Wrappers {

  datatype Option<+T> = None | Some(value: T)

  /** A value or the error that the source would have thrown. */
  datatype Result<+T, +E> = Success(value: T) | Failure(error: E)

  /** Completion of a step that returns nothing, or the error it threw. */
  datatype Outcome<+E> = Pass | Fail(error: E)
}
