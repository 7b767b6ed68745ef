/** Option and Result, the two failure-compatible wrappers the model uses. */
module Wrappers {

  /** A value that may be absent: std::optional, or a null std::unique_ptr. */
  datatype Option<+T> = None | Some(value: T)

  /** The outcome of an operation that may throw: Success, or Failure with the exception's message. */
  datatype Result<+R, +E> = Success(value: R) | Failure(error: E)
}
