/** Failure-carrying result type used for the server's fatal startup conditions. */
module Wrappers {

  /** Either a value or the error that stopped the computation. */
  datatype Result<+T, +E> = Ok(value: T) | Err(error: E)
}
