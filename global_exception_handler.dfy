/**
 * `GlobalExceptionHandler`: turns each exception a request can end in into an
 * error status and an `ErrorResponse` body. Logging is not modelled.
 */
module GlobalExceptionHandler {
  import opened Wrappers
  import opened Http
  import Dtos

  /** The error body: the numeric status and a message. */
  datatype ErrorResponse = ErrorResponse(status: int, errorMessage: string)

  /** `ResponseEntity(errorResponse, status)`. */
  datatype ErrorEntity = ErrorEntity(body: ErrorResponse, status: HttpStatus)

  /** The exception classes the handler has a method for. */
  datatype ExceptionKind =
    | ResourceNotFoundException
    | InvalidOperationException
    | DuplicateResourceException
    | IllegalArgumentException
    | IllegalFormatException
    | IllegalStateException
    | MissingRequestHeaderException
    | HttpMessageNotReadableException
    | TypeMismatchException
    | EmptyResultDataAccessException
    | DataAccessResourceFailureException
    | CannotAcquireLockException
    | DataIntegrityViolationException
  {
    /** The kinds routed to `handleDataAccessExceptions`. */
    predicate IsDataAccess() {
      || EmptyResultDataAccessException? || DataAccessResourceFailureException?
      || CannotAcquireLockException? || DataIntegrityViolationException?
    }
  }

  /** A thrown exception: its class and its message, which may be null. */
  datatype Exception = Exception(kind: ExceptionKind, message: Option<string>)

  /** Kotlin's `message ?: default`. */
  function MessageOr(message: Option<string>, default: string): (m: string)
    ensures message.Some? ==> m == message.value
    ensures message.None? ==> m == default
  {
    match message
    case Some(s) => s
    case None => default
  }

  /** The body carries the numeric value of the response status. */
  ghost predicate Consistent(r: ErrorEntity) {
    r.body.status == Value(r.status)
  }

  function HandleGeneralError(status: HttpStatus, message: string): (r: ErrorEntity)
    ensures Consistent(r) && r.status == status && r.body.errorMessage == message
  {
    ErrorEntity(ErrorResponse(Value(status), message), status)
  }

  function HandleResourceNotFound(ex: Exception): (r: ErrorEntity)
    ensures Consistent(r) && Value(r.status) == 404
    ensures r.body.errorMessage == MessageOr(ex.message, "Resource Not found")
  {
    HandleGeneralError(NotFound, MessageOr(ex.message, "Resource Not found"))
  }

  function HandleInvalidOperation(ex: Exception): (r: ErrorEntity)
    ensures Consistent(r) && Value(r.status) == 400
    ensures r.body.errorMessage == MessageOr(ex.message, "Invalid operation")
  {
    HandleGeneralError(BadRequest, MessageOr(ex.message, "Invalid operation"))
  }

  function HandleDuplicateResource(ex: Exception): (r: ErrorEntity)
    ensures Consistent(r) && Value(r.status) == 409
    ensures r.body.errorMessage == MessageOr(ex.message, "Duplicate resource")
  {
    HandleGeneralError(Conflict, MessageOr(ex.message, "Duplicate resource"))
  }

  /** For `IllegalArgumentException`, `IllegalFormatException` and `IllegalStateException`. */
  function HandleBadRequestRuntimeException(ex: Exception): (r: ErrorEntity)
    ensures Consistent(r) && Value(r.status) == 400
    ensures r.body.errorMessage == MessageOr(ex.message, "Bad Request")
  {
    HandleGeneralError(BadRequest, MessageOr(ex.message, "Bad Request"))
  }

  /** For `MissingRequestHeaderException`. */
  function HandleBadRequestException(ex: Exception): (r: ErrorEntity)
    ensures Consistent(r) && Value(r.status) == 400
    ensures r.body.errorMessage == MessageOr(ex.message, "Bad Request")
  {
    HandleGeneralError(BadRequest, MessageOr(ex.message, "Bad Request"))
  }

  /**
   * The `when` over the data-access exceptions; any other kind reaching it would
   * get 500. This handler builds its response itself rather than through
   * `HandleGeneralError`.
   */
  function HandleDataAccessExceptions(ex: Exception): (r: ErrorEntity)
    ensures Consistent(r)
    ensures ex.kind.EmptyResultDataAccessException? ==> Value(r.status) == 404
    ensures ex.kind.DataAccessResourceFailureException? ==> Value(r.status) == 503
    ensures ex.kind.CannotAcquireLockException? ==> Value(r.status) == 423
    ensures ex.kind.DataIntegrityViolationException? ==> Value(r.status) == 409
    ensures !ex.kind.IsDataAccess() ==> Value(r.status) == 500
    ensures r.body.errorMessage == MessageOr(ex.message, "Database error")
  {
    var status :=
      match ex.kind
      case EmptyResultDataAccessException => NotFound
      case DataAccessResourceFailureException => ServiceUnavailable
      case CannotAcquireLockException => Locked
      case DataIntegrityViolationException => Conflict
      case _ => InternalServerError;
    ErrorEntity(ErrorResponse(Value(status), MessageOr(ex.message, "Database error")), status)
  }

  /** The override of the framework's handler for an unreadable request body. */
  function HandleHttpMessageNotReadable(ex: Exception): (r: ErrorEntity)
    ensures Consistent(r) && Value(r.status) == 400
    ensures r.body.errorMessage == MessageOr(ex.message, "Bad Request")
  {
    HandleGeneralError(BadRequest, MessageOr(ex.message, "Bad Request"))
  }

  /** The override of the framework's handler for a path variable of the wrong type. */
  function HandleTypeMismatch(ex: Exception): (r: ErrorEntity)
    ensures Consistent(r) && Value(r.status) == 400
    ensures r.body.errorMessage == MessageOr(ex.message, "Bad Request")
  {
    HandleGeneralError(BadRequest, MessageOr(ex.message, "Bad Request"))
  }

  /** The status each exception class is answered with. */
  function StatusOf(kind: ExceptionKind): HttpStatus {
    match kind
    case ResourceNotFoundException => NotFound
    case DuplicateResourceException => Conflict
    case EmptyResultDataAccessException => NotFound
    case DataAccessResourceFailureException => ServiceUnavailable
    case CannotAcquireLockException => Locked
    case DataIntegrityViolationException => Conflict
    case _ => BadRequest
  }

  /** The message used when the exception has none. */
  function DefaultMessage(kind: ExceptionKind): string {
    match kind
    case ResourceNotFoundException => "Resource Not found"
    case InvalidOperationException => "Invalid operation"
    case DuplicateResourceException => "Duplicate resource"
    case _ => if kind.IsDataAccess() then "Database error" else "Bad Request"
  }

  /** Routing an exception to the handler method registered for its class. */
  function Handle(ex: Exception): (r: ErrorEntity)
    ensures Consistent(r) && r.status.IsError()
    ensures r.status == StatusOf(ex.kind)
    ensures r.body.errorMessage == MessageOr(ex.message, DefaultMessage(ex.kind))
  {
    match ex.kind
    case ResourceNotFoundException => HandleResourceNotFound(ex)
    case InvalidOperationException => HandleInvalidOperation(ex)
    case DuplicateResourceException => HandleDuplicateResource(ex)
    case IllegalArgumentException => HandleBadRequestRuntimeException(ex)
    case IllegalFormatException => HandleBadRequestRuntimeException(ex)
    case IllegalStateException => HandleBadRequestRuntimeException(ex)
    case MissingRequestHeaderException => HandleBadRequestException(ex)
    case HttpMessageNotReadableException => HandleHttpMessageNotReadable(ex)
    case TypeMismatchException => HandleTypeMismatch(ex)
    case _ => HandleDataAccessExceptions(ex)
  }

  /** A service-layer error as the exception it is thrown as; its message is never null. */
  function FromServiceError(e: Dtos.ServiceError): (ex: Exception)
    ensures ex.message == Some(e.message)
  {
    match e
    case ResourceNotFound(m) => Exception(ResourceNotFoundException, Some(m))
    case InvalidOperation(m) => Exception(InvalidOperationException, Some(m))
    case DuplicateResource(m) => Exception(DuplicateResourceException, Some(m))
  }

  /** The service's errors reach the client as 404, 400 and 409, with their own message. */
  lemma ServiceErrorResponse(e: Dtos.ServiceError)
    ensures Handle(FromServiceError(e)).body.errorMessage == e.message
    ensures e.ResourceNotFound? ==> Handle(FromServiceError(e)).body.status == 404
    ensures e.InvalidOperation? ==> Handle(FromServiceError(e)).body.status == 400
    ensures e.DuplicateResource? ==> Handle(FromServiceError(e)).body.status == 409
  {
  }
}
