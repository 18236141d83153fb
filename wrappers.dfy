/** The optional and result types shared by the model. */
module Wrappers {

  datatype Option<+T> = None | Some(value: T)

  /** The outcome of an operation that either yields a value or stops with an error. */
  datatype Result<+R, +E> = Success(value: R) | Failure(error: E)
}
