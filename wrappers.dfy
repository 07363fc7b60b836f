/** Option, Result and Outcome values used in place of JavaScript's
    undefined, rejected promises and thrown assertion errors. */
module Wrappers {

  datatype Option<+T> = None | Some(value: T)

  /** A settled promise: resolved with a value or rejected with an error. */
  datatype Result<+R, +E> = Success(value: R) | Failure(error: E)

  /** The outcome of a check that either passes or fails with a reason. */
  datatype Outcome<+E> = Pass | Fail(error: E)
}
