/** Failure-carrying return types shared by every module of the model.
    A Java method that throws, or a TypeScript branch that bails out, returns
    `Err` with the message the source uses; a successful call returns `Ok`. */
module Wrappers {

  datatype Option<+T> = None | Some(value: T) {

    /** The wrapped value, or `default` when there is none. */
    function GetOr(default: T): T {
      match this
      case Some(v) => v
      case None => default
    }
  }

  datatype Result<+T> = Ok(value: T) | Err(error: string)

  /** The outcome of a check that either passes or fails with a message. */
  datatype Outcome = Pass | Fail(error: string)
}
