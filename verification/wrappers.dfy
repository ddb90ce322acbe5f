/** Option and Result, used for "maybe absent" values and for the error paths of the core. */
module Wrappers {
  datatype Option<+T> = None | Some(value: T)

  datatype Result<+T, +E> = Ok(value: T) | Err(error: E)
}
