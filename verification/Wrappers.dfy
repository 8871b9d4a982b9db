/** Results shared by every module of the model. */
module Wrappers {

  datatype Option<+T> = None | Some(value: T)

  /** A value, or the typed failure the source raises instead of it. */
  datatype Outcome<+T, +E> = Ok(value: T) | Raised(error: E)
}
