/** Failure-carrying values used throughout the model: a Python call that may
    raise is modelled as a function returning a `Result`, and `None` as an
    `Option`. */
module Results {

  /** Python's `None` or a present value. */
  datatype Option<+T> = None | Some(value: T)

  /** A value, or the exception that a Python call raised instead. */
  datatype Result<+T, +E> = Success(value: T) | Failure(error: E)
}
