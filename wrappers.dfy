/** Option and Result, the two sum types the Rust sources return. */
module Wrappers {

  datatype Option<+T> = None | Some(value: T)

  /** `Ok` carries the value, `Err` the error, as Rust's `Result` does. */
  datatype Result<+T, +E> = Ok(value: T) | Err(error: E)
}
