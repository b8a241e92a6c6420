/** Option and Result, the two failure-carrying shapes the bridge model needs. */
module Wrappers {

  datatype Option<+T> = None | Some(value: T)

  /** A Go `(value, err)` pair: either the value or the error's message. */
  datatype Result<+R, +E> = Success(value: R) | Failure(error: E)
}
