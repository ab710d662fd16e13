/** Value types shared by every component of the model. */
module Common {
  datatype Option<+T> = None | Some(value: T)

  /** The source's exceptions become the `Err` branch. */
  datatype Result<+T, +E> = Ok(value: T) | Err(error: E)

  /** Database identifiers; only equality matters. */
  type Uuid = nat
}
