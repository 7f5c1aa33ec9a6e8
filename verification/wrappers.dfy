/** Failure-carrying return types shared by the cube model and the searches. */
module Wrappers {

  /** A value that may be absent, the model's counterpart of Python's None. */
  datatype Option<+T> = None | Some(value: T)

  /** Either a value or the error a Python exception would have carried. */
  datatype Result<+T, +E> = Ok(value: T) | Err(error: E)
}
