/** Failure-compatible result types shared by every module of the model.
    `Error` lists the HTTP exception classes the backend raises; each carries
    the message the server passes to the exception's constructor. */
module Wrappers {

  datatype Option<+T> = None | Some(value: T) {
    function GetOr(default: T): T {
      match this
      case Some(v) => v
      case None => default
    }
  }

  /** The exception kinds the backend raises (by HTTP status). `Internal` is a
      plain `Error` or a runtime `TypeError`, which the framework answers
      with status 500. */
  datatype Error =
    | NotFound(message: string)          // 404
    | Forbidden(message: string)         // 403
    | Conflict(message: string)          // 409
    | Unauthorized(message: string)      // 401
    | BadRequest(message: string)        // 400
    | PayloadTooLarge(message: string)   // 413
    | Upstream(message: string)          // a failure reported by the LLM provider
    | Internal(message: string)          // 500

  datatype Result<+T> = Ok(value: T) | Err(error: Error) {
    predicate IsFailure() {
      Err?
    }

    function PropagateFailure<U>(): Result<U>
      requires Err?
    {
      Err(error)
    }

    function Extract(): T
      requires Ok?
    {
      value
    }
  }
}
