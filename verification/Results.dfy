/** The outcome of an operation that may be refused, and a value that may be absent. */
module Results {
  datatype Result<+T> = Ok(value: T) | Err(error: string)

  datatype Option<+T> = None | Some(value: T)
}
