/** Failure-compatible wrappers shared by the model: `Option` for storage values that may be
    absent and `Result` for operations that return an error or abort. */
module Wrappers {

  datatype Option<+T> = None | Some(value: T)

  datatype Result<+T, +E> = Success(value: T) | Failure(error: E)
}
