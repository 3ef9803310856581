/** Optional values and results shared by the roll model. */
module Results {

  /** An optional value. */
  datatype Option<+T> = None | Some(value: T)

  /** The value of an operation that either succeeds or stops the roll with an error. */
  datatype Result<+T, +E> = Ok(value: T) | Err(error: E)
}
