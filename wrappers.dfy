/** Failure-carrying results shared by every module of the model. */
module Wrappers {

  datatype Option<+T> = None | Some(value: T)

  /** The outcome of an operation of the source that may raise an exception. */
  datatype Result<+T, +E> = Ok(value: T) | Err(error: E)
}
