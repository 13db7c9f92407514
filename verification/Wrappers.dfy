/** Results that may be missing, and calls that may raise. */
module Wrappers {
  datatype Option<+T> = None | Some(value: T)

  /** A call that returns or raises. */
  datatype Outcome<+T> = Ok(value: T) | Raised
}
