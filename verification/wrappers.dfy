/** Failure-carrying values shared by the rest of the model. */
module Wrappers {

  /** A value that may be absent (a missing query parameter, a user not found). */
  datatype Option<+T> = None | Some(value: T)

  /** The outcome of a schema parse: the parsed value, or the issues that rejected it. */
  datatype Result<+R, +E> = Success(value: R) | Failure(error: E)
}
