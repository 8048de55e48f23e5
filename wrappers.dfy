/** Python's `None` and raised exceptions as values. */
module Wrappers {

  /** A value or Python's `None`. */
  datatype Option<+T> = None | Some(value: T)

  /** A value, or the exception raised while computing it. */
  datatype Result<+T, +E> = Ok(value: T) | Err(error: E)
}
