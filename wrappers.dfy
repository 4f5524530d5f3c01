/** Option and Result, the two failure-carrying types the kernel's Rust code uses. */
module Wrappers {

  datatype Option<+T> = None | Some(value: T)

  datatype Result<+T, +E> = Ok(value: T) | Err(error: E)

  /** The unit value, for `Result<(), E>`. */
  datatype Unit = Unit
}
