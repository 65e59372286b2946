/** Option and Result, the failure-carrying datatypes used throughout the model. */
module Wrappers {

  datatype Option<+T> = None | Some(value: T)

  /** A computation that either succeeds with a value or fails with an error
      (the model of a Python exception escaping a call). */
  datatype Result<+R, +E> = Ok(value: R) | Err(error: E)
}
