/** Failure-carrying values used across the model. */
module Wrappers {

  /** An optional value: `None` when there is none. */
  datatype Option<+T> = None | Some(value: T)

  /** The outcome of an operation that can fail with an error of type `E`. */
  datatype Result<+T, +E> = Ok(value: T) | Err(error: E)
}
