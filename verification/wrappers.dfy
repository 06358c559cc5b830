/** Failure-carrying values shared by every module of the model. */
module Wrappers {

  /** PHP's `null` or a present value. */
  datatype Option<+T> = None | Some(value: T)

  /** A normal return carrying a value, or a raised exception carrying an error. */
  datatype Result<+T, +E> = Ok(value: T) | Err(error: E)
}
