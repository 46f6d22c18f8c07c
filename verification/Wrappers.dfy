/** The result types that stand for the program's exceptions and optional message fields. */
module Wrappers {

  datatype Option<+T> = None | Some(value: T) {
    function GetOr(default: T): T {
      if Some? then value else default
    }
  }

  /** A returned value, or the message of the exception thrown instead. */
  datatype Result<+T> = Ok(value: T) | Err(message: string)

  /** A call that returns nothing, or the message of the exception thrown instead. */
  datatype Outcome = Pass | Fail(message: string)
}
