/**
 The two result types shared by the other modules.
 */
module Basics {
  /** A Python value that may be None. */
  datatype Option<+T> = None | Some(value: T)

  /** A call that returns or raises. */
  datatype Result<+T, +E> = Ok(value: T) | Err(error: E)
}
