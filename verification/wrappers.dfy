/** Optional values and results with an error, as used by the rest of the model. */
module Wrappers {

  /** A value that may be absent: `undefined`/`null` on the JavaScript side. */
  datatype Option<+T> = None | Some(value: T)

  /** The outcome of an operation that may throw: `Err` carries the message. */
  datatype Result<+T, +E> = Ok(value: T) | Err(error: E)
}
