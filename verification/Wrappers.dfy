module Wrappers {
  /** A value that may be missing: a nil pointer, an absent map entry, a refused parse. */
  datatype Option<+T> = None | Some(value: T)

  /** A result or the error that replaced it. */
  datatype Result<+T, +E> = Ok(value: T) | Err(error: E)
}
