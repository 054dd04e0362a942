/** A value that may be missing, and a value or the error there is instead. */
module Options {
  datatype Option<T> = None | Some(value: T)

  datatype Result<T, E> = Ok(value: T) | Err(error: E)
}
