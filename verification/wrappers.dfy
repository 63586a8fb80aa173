/** Option and Result types shared by every module of the model, plus the HTTP status codes the
    route handlers answer with. */
module Wrappers {

  datatype Option<+T> = None | Some(value: T) {
    function GetOr(default: T): T {
      match this
      case Some(v) => v
      case None => default
    }
  }

  /** The outcome of a route handler: a value, or an HTTP error status. */
  datatype Result<+T> = Ok(value: T) | Err(status: int)

  const BadRequest := 400
  const Forbidden := 403
  const NotFound := 404
  const Conflict := 409
  const ServerError := 500
}
