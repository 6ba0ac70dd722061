/** The optional values shared by the models: a Go pointer or (value, ok) pair that may be absent. */
module Wrappers {
  datatype Option<+T> = None | Some(value: T)

  datatype Result<+T, +E> = Ok(value: T) | Err(error: E)
}
