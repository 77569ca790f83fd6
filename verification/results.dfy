/** Failure-carrying return values shared by the whole model: Go's `(T, error)`
    pairs become `Result`, and the decoders that can reject their input return
    `Option`. */
module Results {

  /** The outcome of an operation that either yields a value or an error. */
  datatype Result<+T, +E> = Ok(value: T) | Err(error: E)

  /** A value that may be absent. */
  datatype Option<+T> = None | Some(value: T)
}
