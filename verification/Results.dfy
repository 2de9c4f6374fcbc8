/** A value that may be missing, and an outcome that may be a refusal with its reason. */
module Results {

  datatype Option<+T> = None | Some(value: T)

  datatype Result<+T, +E> = Ok(value: T) | Err(error: E)
}
