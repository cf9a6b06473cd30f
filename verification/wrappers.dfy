/** Failure-carrying wrappers shared by every module of the model. */
module Wrappers {

  /** A value that may be absent: Python's `None` for a read that found nothing. */
  datatype Option<+T> = None | Some(value: T) {

    /** The wrapped value, or `default` when there is none. */
    function GetOr(default: T): T {
      match this
      case Some(v) => v
      case None => default
    }
  }

  /** The result of a Python step that may raise: `Err` carries a short description of the exception. */
  datatype Result<+T> = Ok(value: T) | Err(error: string)
}
