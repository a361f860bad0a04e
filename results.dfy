/** Failure-carrying wrappers used in place of the exceptions and nullable
    references of the original program. */
module Results {

  datatype Option<+T> = None | Some(value: T)

  /** A value, or the error that would have been thrown instead. */
  datatype Result<+T, +E> = Ok(value: T) | Err(error: E)
}
