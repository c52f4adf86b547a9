/** Result type shared by every operation of the model that can fail. */
module Results {

  datatype Result<+T, +E> = Success(value: T) | Failure(error: E)

  datatype Option<+T> = None | Some(value: T)
}
