/** The Option datatype used throughout the model for JavaScript's `undefined`,
    for `NaN` from `parseInt`, and for decoders that may fail; and the Result datatype
    for an operation that may throw. */
module Wrappers {

  datatype Option<+T> = None | Some(value: T) {

    /** The value, or `default` when there is none (JavaScript's `x ?? d`). */
    function GetOr(default: T): T {
      match this
      case Some(v) => v
      case None => default
    }
  }

  /** A value, or the exception thrown instead. */
  datatype Result<+T> = Ok(value: T) | Err(message: string)
}
