/** Success/failure values: the outcome of a call that may return an error. */
module Results {

  datatype Result<+T, +E> = Success(value: T) | Failure(error: E)
}
