/** Result types shared by every component. */
module Common {

  datatype Option<+T> = None | Some(value: T)

  /** A call of the source returns a value or throws; `Error` carries what it throws. */
  datatype Result<+T, +E> = Ok(value: T) | Error(error: E)
}
