/** Success and failure wrappers shared by the other modules. */
module Results {

  /** A row that a lookup may or may not find, an optional query parameter. */
  datatype Option<+T> = None | Some(value: T)

  /** The outcome of a request: a value, or the error the endpoint raises. */
  datatype Result<+T, +E> = Ok(value: T) | Err(error: E)
}
