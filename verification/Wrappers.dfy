/** The two result shapes the provider's Go code expresses with pointers and error returns. */
module Wrappers {

  /** A Go pointer to a scalar: nil or a value. */
  datatype Option<+T> = None | Some(value: T) {
    function GetOr(default: T): T {
      if Some? then value else default
    }
  }

  /** A Go `(value, error)` pair. */
  datatype Result<+T, +E> = Ok(value: T) | Err(error: E)
}
