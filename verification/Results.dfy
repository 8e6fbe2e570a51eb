/**
  The outcome of an operation that can fail; the error values themselves carry nothing that
  a caller inspects.
 */
module Results {
  datatype Result<T> = Ok(value: T) | Err
}
