/** Result types shared by the models. */
module Common {
  datatype Option<+T> = None | Some(value: T)

  /** A value, or the error the operation returned. */
  datatype Result<+T> = Ok(value: T) | Err(error: string)
}
