/** Option and Result, the failure-carrying values the rest of the model returns. */
module Wrappers {

  /** A value that may be absent: Python's `None` or a present value. */
  datatype Option<+T> = None | Some(value: T)

  /** The outcome of a route: its response value or the HTTP error it raises. */
  datatype Result<+T, +E> = Success(value: T) | Failure(error: E)
}
