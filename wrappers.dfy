/** Failure-carrying values shared by the model: Rust's `Option`, and a result
    that carries either a value or the input that made an operation fail. */
module Wrappers {

  datatype Option<+T> = None | Some(value: T)

  datatype Result<+T, +E> = Ok(value: T) | Err(error: E)
}
