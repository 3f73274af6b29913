/** Option, Result and Outcome datatypes shared by the scan and the purchase check. */
module Wrappers {

  datatype Option<+T> = None | Some(value: T)

  /** A value, or the reason the test hook stopped with a failed expectation. */
  datatype Result<+R, +E> = Success(value: R) | Failure(error: E)

  /** A check that passes, or the reason it failed. */
  datatype Outcome<+E> = Pass | Fail(error: E)
}
