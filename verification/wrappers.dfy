/** Option and Result, the two failure-compatible wrappers the model uses
    for Python's `None` and for exceptions that escape a call. */
module Wrappers {

  /** `None` or a present value. */
  datatype Option<+T> = None | Some(value: T) {

    /** The value, or `default` when there is none (Python's `d.get(k, default)`). */
    function GetOr(default: T): T {
      match this
      case Some(v) => v
      case None => default
    }
  }

  /** A value, or the exception the call raised instead. */
  datatype Result<+T, +E> = Ok(value: T) | Err(error: E)
}
