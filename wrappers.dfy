/** The two small sum types the model uses in place of Rust's `Option` and of a panic. */
module Wrappers {

  datatype Option<+T> = None | Some(value: T)

  datatype Result<+R, +E> = Success(value: R) | Failure(error: E)
}
