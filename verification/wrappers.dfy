/** Option and Result, the shapes of Rust's `Option` and `anyhow::Result` used by the model. */
module Wrappers {

  datatype Option<+T> = None | Some(value: T)

  datatype Result<+R, +E> = Success(value: R) | Failure(error: E)
}
