/** Value-or-absence and value-or-error wrappers shared by the other modules. */
module Results {

  datatype Option<+T> = None | Some(value: T)

  /** The outcome of an operation that may raise: a value, or the message of the raised error. */
  datatype Result<+T> = Success(value: T) | Failure(error: string)
}
