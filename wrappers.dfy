/** Result shapes shared by every module: a missing value, a value or an error message,
    and the pass/fail outcome of an operation that returns nothing. A thrown exception of the
    modelled system (a KnownException, an ArgumentException from a dictionary, ...) becomes an
    error value carrying its message. */
module Wrappers {

  datatype Option<+T> = None | Some(value: T) {
    function GetOr(default: T): T {
      match this
      case Some(v) => v
      case None => default
    }
  }

  datatype Result<+T> = Ok(value: T) | Err(error: string)

  datatype Outcome = Pass | Fail(error: string)

  /** What sending a command through the pipeline yields: the handler's value, the messages of
      every validation rule that failed (the handler does not run), or the message of the
      exception the handler threw. */
  datatype Reply<+T> = Done(value: T) | Invalid(errors: seq<string>) | Failed(error: string)
}
