/** The optional values and outcomes shared by every module of the model. */
module Wrappers {

  /** A value that may be absent (a JavaScript `undefined` field). */
  datatype Option<+T> = None | Some(value: T)

  /** The outcome of an operation that either succeeds or fails with an error code. */
  datatype Outcome<+E> = Pass | Fail(error: E)
}
