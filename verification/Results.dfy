/** What may be missing, and what may fail. */
module Options {
  datatype Option<+T> = None | Some(value: T)
}

module Results {
  datatype Result<+T, +E> = Ok(value: T) | Err(error: E)
}
