module Wrappers {
  datatype Option<+T> = None | Some(value: T)

  /** An operation's value, or the exception it threw. */
  datatype Result<+T, +E> = Ok(value: T) | Threw(error: E)
}
