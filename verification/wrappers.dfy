/** Option and Result, the two failure-carrying types the probing modules return. */
module Wrappers {

  /** Rust's `Option`. */
  datatype Option<+T> = None | Some(value: T)

  /** Rust's `Result`, with the error kept as a value. */
  datatype Result<+T, +E> = Ok(value: T) | Err(error: E)
}
