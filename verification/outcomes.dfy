/** Failure-carrying values shared by every part of the menu service.
    An HTTP abort of the service becomes an `Err` carrying the status code
    and the message the service attaches to it. */
module Outcomes {

  datatype Option<+T> = None | Some(value: T)

  /** An aborted request: the HTTP status and its message. */
  datatype Error = Error(status: nat, message: string)

  datatype Result<+T> = Ok(value: T) | Err(error: Error)

  const BadRequest: nat := 400
  const NotFound: nat := 404
  const Conflict: nat := 409
  const InternalServerError: nat := 500

  /** The error a request ends with when the service raises an uncaught
      exception (Flask answers it with a bare 500). */
  const Crash: Error := Error(InternalServerError, "Internal Server Error")
}
