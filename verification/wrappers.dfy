/** Failure-compatible result types shared by the model. */
module Wrappers {

  /** A value that may be absent: JavaScript's `undefined`/`null` for the model. */
  datatype Option<+T> = None | Some(value: T)

  /** The outcome of a step that can fail with an error value. */
  datatype Result<+T, +E> = Ok(value: T) | Err(error: E)
}
