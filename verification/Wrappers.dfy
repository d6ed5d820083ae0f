/** Bytes, and the result and option types used where the source raises an exception or returns None. */
module Wrappers {

  newtype byte = x: int | 0 <= x < 256

  datatype Option<+T> = None | Some(value: T)

  datatype Result<+T, +E> = Ok(value: T) | Err(error: E)
}
