/** The optional and fallible results shared by the model's modules. */
module Wrappers {

  /** An optional value, as Rust's `Option`. */
  datatype Option<T> = None | Some(value: T)

  /** A value or an error, as Rust's `Result`. */
  datatype Result<T, E> = Ok(value: T) | Err(error: E)
}
