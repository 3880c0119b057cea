/** Option and Result, used for JavaScript's `undefined`/`null` and for thrown errors. */
module Wrappers {

  /** `None` stands for a missing (undefined or null) value. */
  datatype Option<+T> = None | Some(value: T)

  /** `Failure` stands for an error thrown by the JavaScript code. */
  datatype Result<+R, +E> = Success(value: R) | Failure(error: E)
}
