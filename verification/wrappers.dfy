/** Option and Result, the two failure-carrying shapes the ledger operations return. */
module Wrappers {

  /** A value that may be absent (Python's `None` versus a value). */
  datatype Option<+T> = None | Some(value: T)

  /** The outcome of an operation that can fail with an error of type E. */
  datatype Result<+R, +E> = Success(value: R) | Failure(error: E)
}
