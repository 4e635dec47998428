/** Failure-carrying values shared by every module of the model.
    `Option` stands for JavaScript's `null`/`undefined` and Python's `None`;
    `Result` stands for an operation that either returns or raises. */
module Wrappers {

  datatype Option<+T> = None | Some(value: T) {
    function GetOr(default: T): T {
      match this
      case Some(v) => v
      case None => default
    }
  }

  /** `Err` carries the message of the exception the source raises. */
  datatype Result<+T> = Ok(value: T) | Err(message: string)
}
