/** Option and Result, the two failure-carrying shapes the model returns. */
module Wrappers {

  /** A value that may be absent: Go's nil result. */
  datatype Option<+T> = None | Some(value: T)

  /** A value or an error: Go's `(value, error)` pair. */
  datatype Result<+T, +E> = Ok(value: T) | Err(error: E)
}
