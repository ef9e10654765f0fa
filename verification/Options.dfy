/** The two wrapper types shared by the models. */
module Options {
  datatype Option<+T> = None | Some(value: T)

  /** A call that returns a value or throws an error with a code. */
  datatype Result<+T, +E> = Ok(value: T) | Err(error: E)
}
