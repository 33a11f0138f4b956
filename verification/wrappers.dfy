/** Failure-carrying datatypes shared by the rest of the model. */
module Wrappers {

  /** An optional value. */
  datatype Option<+T> = None | Some(value: T)

  /** Either a value or the error that stopped the computation producing it. */
  datatype Result<+R, +E> = Success(value: R) | Failure(error: E)
}
