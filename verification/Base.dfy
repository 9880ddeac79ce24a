/** Vocabulary shared by every part of the model. */
module Base {

  datatype Option<+T> = None | Some(value: T)

  /** Outcome of an operation the source may refuse by raising. */
  datatype Result<+T, +E> = Ok(value: T) | Err(error: E)
}
