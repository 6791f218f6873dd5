/** Option and Result, the two failure types the model uses for `null` returns and thrown errors. */
module Wrappers {

  datatype Option<+T> = None | Some(value: T) {
    /** `x || d` on a possibly-absent value */
    function GetOr(default: T): T {
      match this
      case Some(v) => v
      case None => default
    }
  }

  datatype Result<+T, +E> = Ok(value: T) | Err(error: E)
}
