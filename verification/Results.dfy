/** Outcomes shared by every component: a value or an error, and optional values. */
module Results {
  datatype Result<+T, +E> = Ok(value: T) | Err(error: E)

  datatype Option<+T> = None | Some(value: T)
}
