/** Failure-carrying values used across the model: Ruby's `nil` becomes `None`,
    a raised exception becomes `Err`. */
module Wrappers {

  datatype Option<+T> = None | Some(value: T)

  /** The outcome of an operation that may raise; `reason` stands for the
      exception message. */
  datatype Result<+T> = Ok(value: T) | Err(reason: string)
}
