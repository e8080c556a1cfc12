/** Failure-carrying results for the operations that raise `ValueError`. */
module Outcomes {

  /** The value of an operation that either succeeds or raises an error. */
  datatype Result<+T, +E> = Ok(value: T) | Err(error: E)

  /** The value of a check that either passes or raises an error. */
  datatype Outcome<+E> = Pass | Fail(error: E)
}
