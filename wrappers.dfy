/** Option and Result values shared by the modules of this model. */
module Wrappers {

  /** A value that may be absent: the model's reading of a nullable pointer or reference. */
  datatype Option<+T> = None | Some(value: T)

  /** The outcome of an operation that can fail with an error value. */
  datatype Result<+R, +E> = Success(value: R) | Failure(error: E)
}
