/** The optional-value and result datatypes used throughout the attendance model. */
module Wrappers {

  /** A value that may be absent: Python's `None` versus a present value. */
  datatype Option<+T> = None | Some(value: T)

  /** The outcome of an operation that can abort with an error. */
  datatype Result<+T, +E> = Success(value: T) | Failure(error: E)
}
