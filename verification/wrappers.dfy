/** Failure-carrying values shared by the modules of the model. */
module Wrappers {

  /** A value that may be absent: a parse that did not succeed, a file that
      could not be opened, a report that was not produced. */
  datatype Option<+T> = None | Some(value: T)

  /** The outcome of a step that can raise: its value, or the error raised. */
  datatype Result<+T, +E> = Success(value: T) | Failure(error: E)
}
