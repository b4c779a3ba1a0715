/** The HTTP results the minimal-API handlers return (Results.Ok, Accepted, BadRequest,
    NotFound, Conflict, Problem, File and Stream), reduced to what a client observes. */
module Http {
  import opened Wrappers

  datatype Response<T> =
    | Ok(body: T)
    | Accepted(location: string, body: T)
    | BadRequest
    | NotFound(found: Option<T>)
    | Conflict(body: T)
    | Problem(detail: Option<string>)
    | FileBody(path: string, contentType: string, downloadName: Option<string>)
  {
    /** The status code sent to the client. */
    function StatusCode(): int {
      match this
      case Ok(_) => 200
      case Accepted(_, _) => 202
      case BadRequest => 400
      case NotFound(_) => 404
      case Conflict(_) => 409
      case Problem(_) => 500
      case FileBody(_, _, _) => 200
    }
  }
}
