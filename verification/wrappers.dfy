/** Failure-carrying values shared by every module of the model. */
module Wrappers {

  /** A value that may be absent: a missing storage key, an empty session. */
  datatype Option<+T> = None | Some(value: T)

  /** The result of an operation that either succeeds or fails with an error. */
  datatype Outcome<+E> = Pass | Fail(error: E)
}
