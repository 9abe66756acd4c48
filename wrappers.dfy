/** Option and Result: the values the actions return instead of throwing. */
module Wrappers {

  datatype Option<+T> = None | Some(value: T)

  /** `Success` is a resolved promise; `Failure` an exception the action throws. */
  datatype Result<+R, +E> = Success(value: R) | Failure(error: E)
}
