/** The HTTP statuses the service answers with, and their numeric codes. */
module Http {

  datatype HttpStatus =
    | Created | NoContent
    | BadRequest | NotFound | Conflict | Locked
    | InternalServerError | ServiceUnavailable
  {
    /** A 4xx or 5xx status. */
    predicate IsError() {
      !(Created? || NoContent?)
    }
  }

  /** `HttpStatus.value()`: the status code. */
  function Value(s: HttpStatus): (code: int)
    ensures 201 <= code < 600
    ensures s.IsError() <==> code >= 400
    ensures s.IsError() ==> (code < 500 <==> !(s.InternalServerError? || s.ServiceUnavailable?))
    ensures s.Created? ==> code == 201
    ensures s.NoContent? ==> code == 204
    ensures s.BadRequest? ==> code == 400
    ensures s.NotFound? ==> code == 404
    ensures s.Conflict? ==> code == 409
    ensures s.Locked? ==> code == 423
    ensures s.InternalServerError? ==> code == 500
    ensures s.ServiceUnavailable? ==> code == 503
  {
    match s
    case Created => 201
    case NoContent => 204
    case BadRequest => 400
    case NotFound => 404
    case Conflict => 409
    case Locked => 423
    case InternalServerError => 500
    case ServiceUnavailable => 503
  }

}
