module Wrappers {
  /** A value, or none where the source returns an error or a missing entry. */
  datatype Option<T> = None | Some(value: T)

  /** A value or an error. */
  datatype Result<T, E> = Ok(value: T) | Err(error: E)
}
