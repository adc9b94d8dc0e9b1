/** Option and Result values used throughout the model.
    `Result` stands for a computation that may throw: `Err(msg)` carries the
    message of the JavaScript `Error` the source throws. */
module Wrappers {

  datatype Option<+T> = None | Some(value: T) {
    function GetOr(default: T): T {
      match this
      case Some(v) => v
      case None => default
    }
  }

  datatype Result<+T> = Ok(value: T) | Err(msg: string) {
    predicate IsFailure() {
      Err?
    }

    function PropagateFailure<U>(): Result<U>
      requires Err?
    {
      Err(msg)
    }

    function Extract(): T
      requires Ok?
    {
      value
    }
  }

  /** Message of the `TypeError` the JavaScript runtime throws when a property
      of `null`/`undefined` is read or a non-function is called. */
  const TypeError: string := "TypeError"
}
