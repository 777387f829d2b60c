/** The two result shapes used across the model. */
module Options {

  datatype Option<+T> = None | Some(value: T)

  /** A command either succeeds with a value or is refused with an error; a refusal rolls back. */
  datatype Result<+T, +E> = Success(value: T) | Failure(error: E)
}
