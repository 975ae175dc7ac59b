/** Option and Result values shared by the modules below. */
module Results {
  datatype Option<+T> = None | Some(value: T)

  /** Success carries a value; Failure carries the error the source would raise. */
  datatype Result<+T, +E> = Success(value: T) | Failure(error: E)
}
