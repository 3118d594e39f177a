/** The optional value and the success-or-error result used across the model. */
module Wrappers {
  /** A value that may be absent (JavaScript `undefined` or `null`). */
  datatype Option<T> = None | Some(value: T)

  /** The outcome of an operation that throws: `Err` carries the thrown error's message. */
  datatype Result<T, E> = Ok(value: T) | Err(error: E)
}
