/** Option and Result, the two failure-carrying values the model uses. */
module Wrappers {

  datatype Option<+T> = None | Some(value: T)

  /** Either a value or the error that a Python call would have raised. */
  datatype Result<+R, +E> = Ok(value: R) | Err(error: E)
}
