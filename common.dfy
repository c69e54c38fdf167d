/** Failure-compatible wrappers shared by every module of the model. */
module Common {

  /** A value that may be absent (JavaScript's `undefined`, or a lookup that found nothing). */
  datatype Option<+T> = None | Some(value: T)

  /** The outcome of an operation that either yields a value or raises an error. */
  datatype Result<+T, +E> = Ok(value: T) | Err(error: E)
}
