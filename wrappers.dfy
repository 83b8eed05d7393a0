/** The Option, Result and Outcome types shared by the model. */
module Wrappers {

  /** A value that may be absent (JavaScript `null` / `undefined`). */
  datatype Option<+T> = None | Some(value: T)

  /** A value, or the message of the error thrown while computing it. */
  datatype Result<+T> = Ok(value: T) | Err(message: string)

  /** The outcome of an operation that returns nothing but may throw an error with a message. */
  datatype Outcome = Pass | Fail(message: string)
}
