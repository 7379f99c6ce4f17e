/** Failure-carrying values shared by the whole model: `Option` for Python's
    `None`-or-value returns, `Result` for operations that raise in the source. */
module Wrappers {

  datatype Option<+T> = None | Some(value: T)

  datatype Result<+R, +E> = Success(value: R) | Failure(error: E)
}
