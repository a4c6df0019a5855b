/** Optional values and success-or-failure results, used across the model. */
module Wrappers {

  /** A value that may be absent; `None` stands for JavaScript's `undefined`. */
  datatype Option<+T> = None | Some(value: T)

  /** The outcome of a step that may fail with an error value. */
  datatype Result<+T, +E> = Ok(value: T) | Err(error: E)
}
