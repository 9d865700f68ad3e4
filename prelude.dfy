/** The two standard sum types the Rust sources use for absence and failure. */
module Prelude {

  /** `Option<T>`: a value that may be absent. */
  datatype Option<+T> = None | Some(value: T)

  /** `Result<T, E>`: either a value or an error. */
  datatype Result<+T, +E> = Ok(value: T) | Err(error: E)
}
