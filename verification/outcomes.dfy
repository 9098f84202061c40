/** Failure-carrying return values shared by every module of the model.
    `Option` stands for a Python value that may be `None` or a lookup that
    may raise `KeyError`; `Result` stands for a call that may raise an
    exception with a message. */
module Outcomes {

  datatype Option<+T> = None | Some(value: T)

  datatype Result<+T> = Ok(value: T) | Err(message: string)
}
