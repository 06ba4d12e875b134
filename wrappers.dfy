/** Small failure-aware wrappers shared by the note modules. */
module Wrappers {

  /** A value that may be absent: the model of C#'s nullable results (`FirstOrDefault`, `?.`). */
  datatype Option<+T> = None | Some(value: T)

  /** The outcome of an operation that either succeeds with no value or fails with an error,
      the model of a `void` method that may throw. */
  datatype Outcome<+E> = Pass | Fail(error: E)
}
