/** Failure-compatible wrappers used across the model: `Option` stands for
    C#'s nullable references, `Result` for operations that throw. */
module Wrappers {

  datatype Option<+T> = None | Some(value: T)

  datatype Result<+R, +E> = Success(value: R) | Failure(error: E)
}
