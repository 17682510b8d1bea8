/** The two failure-carrying wrappers the model uses in place of Go's `(T, error)` returns. */
module Results {

  /** A value that may be absent; `None` also stands for a nil `error`. */
  datatype Option<T> = None | Some(value: T)

  /** The outcome of an operation that either yields a value or fails with an error message. */
  datatype Result<T> = Ok(value: T) | Err(msg: string)
}
