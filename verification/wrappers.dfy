/** Failure-carrying values shared by every module of the model: `Option` for
    Python's `X | None`, `Result` for a computation that may raise. */
module Wrappers {

  datatype Option<+T> = None | Some(value: T)

  datatype Result<+T, +E> = Ok(value: T) | Err(error: E)
}
