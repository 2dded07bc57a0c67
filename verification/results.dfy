/** Failure-carrying values shared by the tester and the server models. */
module Results {

  /** A value that may be missing, as a Go "value, ok" pair or a JavaScript `undefined`. */
  datatype Option<+T> = None | Some(value: T)

  /** Either a computed value or the reason it could not be computed. */
  datatype Result<+T, +E> = Ok(value: T) | Err(error: E)
}
