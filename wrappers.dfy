/** Failure-carrying values used across the model: `Option` stands for a
    value that may be missing (a NaN sample, an unbound script variable),
    `Result` for an operation that can raise. */
module Wrappers {

  datatype Option<+T> = None | Some(value: T)

  datatype Result<+T, +E> = Ok(value: T) | Err(error: E)
}
