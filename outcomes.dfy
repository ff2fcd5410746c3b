/** Failure-compatible values shared by every module of the model. */
module Outcomes {

  /** A value that may be absent (`undefined` or a falsy value in the source). */
  datatype Option<+T> = None | Some(value: T)

  /** The outcome of an operation that either yields a value or fails with an error. */
  datatype Result<+T, +E> = Ok(value: T) | Err(error: E)

  /** How a synchronous call ends: normally, or by throwing an exception that its caller does not catch. */
  datatype Completion = Normal | Threw(reason: string)
}
