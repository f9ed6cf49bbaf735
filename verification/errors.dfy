/**
 * The application's error classes: every error carries a message and an
 * HTTP status, and each subclass fixes the status and a default message
 * used when none is given.
 */
module Errors {
  import opened Common

  const VALIDATION_ERROR := "Validation error"
  const NOT_FOUND := "Resource not found"
  const UNAUTHORIZED := "Unauthorized access"
  const FORBIDDEN := "Forbidden access"

  datatype ErrorKind = Validation | NotFound | Unauthorized | Forbidden

  /** AppError(message, statusCode). */
  datatype AppError = AppError(message: string, statusCode: int)

  /** Each subclass has its own client-error status. */
  function StatusOf(kind: ErrorKind): (status: int)
    ensures 400 <= status < 500
    ensures status == 400 <==> kind == Validation
    ensures status == 401 <==> kind == Unauthorized
    ensures status == 403 <==> kind == Forbidden
    ensures status == 404 <==> kind == NotFound
  {
    match kind
    case Validation => 400
    case NotFound => 404
    case Unauthorized => 401
    case Forbidden => 403
  }

  function DefaultMessage(kind: ErrorKind): string
  {
    match kind
    case Validation => VALIDATION_ERROR
    case NotFound => NOT_FOUND
    case Unauthorized => UNAUTHORIZED
    case Forbidden => FORBIDDEN
  }

  /**
   * `new ValidationError(message)` and its siblings: the default message is
   * used only when the argument is absent (`undefined`), not when it is "".
   */
  function Raise(kind: ErrorKind, message: Option<string>): (e: AppError)
    ensures 400 <= e.statusCode < 500
    ensures KindOfStatus(e.statusCode) == Some(kind)
    ensures message.Some? ==> e.message == message.value
    ensures message.None? ==> e.message == DefaultMessage(kind) && e.message != ""
  {
    AppError(if message.Some? then message.value else DefaultMessage(kind), StatusOf(kind))
  }

  /** Which subclass an error status belongs to. */
  function KindOfStatus(status: int): (k: Option<ErrorKind>)
    ensures k.Some? ==> StatusOf(k.value) == status
    ensures k.None? ==> forall kind :: StatusOf(kind) != status
  {
    if status == 400 then Some(Validation)
    else if status == 404 then Some(NotFound)
    else if status == 401 then Some(Unauthorized)
    else if status == 403 then Some(Forbidden)
    else None
  }
}
