/** `Option` and `Result`: Go's nilable pointers and (value, error) pairs. */
module Results {

  datatype Option<+T> = None | Some(value: T)

  datatype Result<+T, +E> = Ok(value: T) | Err(error: E)
}
