/** The result types used by every operation of the model: an
    operation either fails with an error (the source raises an exception) or
    succeeds with a value. */
module Results {

  /** A value that may be absent (the source's `None`). */
  datatype Option<+T> = None | Some(value: T)

  /** Either the successful value or the error that aborted the operation. */
  datatype Result<+T, +E> = Ok(value: T) | Err(error: E)
}
