/** Small failure-carrying datatypes shared by the rest of the model. */
module Wrappers {

  /** A value that may be missing: an optional field, an unselected file, a failed call. */
  datatype Option<+T> = None | Some(value: T)

  /** The outcome of a validation or a call that can fail with an error value. */
  datatype Result<+R, +E> = Success(value: R) | Failure(error: E)
}
