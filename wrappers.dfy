/** Failure-carrying return types shared by every module of the model. */
module Wrappers {

  /** A value that may be absent (Rust `Option`, Python `None`). */
  datatype Option<+T> = None | Some(value: T)

  /** A value or an error (Rust `Result`, a raised Python exception). */
  datatype Result<+T, +E> = Ok(value: T) | Err(error: E)

  /** Success or an error with no value (Rust `Result<(), E>`). */
  datatype Outcome<+E> = Pass | Fail(error: E)
}
