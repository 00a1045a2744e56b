/** Datatypes shared by the components of the model. */
module Common {

  datatype Option<+T> = None | Some(value: T)

  /** A thrown error or a value. */
  datatype Result<+T, +E> = Ok(value: T) | Err(error: E)
}
