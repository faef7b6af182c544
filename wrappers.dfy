/** Option, Result and Outcome: the error paths of the modelled operations. */
module Wrappers {

  datatype Option<+T> = None | Some(value: T)

  /** A value or an error: a JavaScript function that returns or throws. */
  datatype Result<+R, +E> = Success(value: R) | Failure(error: E)

  /** A JavaScript function returning `void` that either completes or throws. */
  datatype Outcome<+E> = Pass | Fail(error: E)
}
