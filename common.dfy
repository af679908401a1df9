/** Small helper datatypes shared by the model. */
module Common {

  datatype Option<T> = None | Some(value: T)

  /** The outcome of an operation that may raise one of the source's exceptions. */
  datatype Result<T, E> = Ok(value: T) | Err(error: E)
}
