/**
  Option, the stand-in for JavaScript's `null`/`undefined`, and Result, a
  value or the message of the Error thrown instead.
*/
module Wrappers {

  datatype Option<+T> = None | Some(value: T) {

    /** The value held in Some, or `default` for None. */
    function GetOr(default: T): T {
      match this
      case Some(v) => v
      case None => default
    }
  }

  datatype Result<+T> = Success(value: T) | Failure(error: string)
}
