/**
  Failure-carrying values shared by the rest of the model.
  - `Option` stands for a Python value that may be `None`.
  - `Result` stands for a call that either returns a value or raises;
    the error carries the exception's message.
 */
module Wrappers {

  datatype Option<+T> = None | Some(value: T)

  datatype Result<+T> = Ok(value: T) | Err(message: string)
}
