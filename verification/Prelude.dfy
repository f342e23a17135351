/** The shapes the model shares: bytes, missing values, refusals. */
module Prelude {

  type byte = bv8

  datatype Option<+T> = None | Some(value: T)

  datatype Result<+T, +E> = Ok(value: T) | Err(error: E)
}
