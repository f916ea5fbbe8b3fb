/**
 * The service's HTTP exceptions (server/src/exceptions.py): each kind has a
 * fixed status code and a default detail message. `Error` adds the plain
 * Python failures the model keeps track of, and `Result` carries either a
 * value or the error that was raised.
 */
module Exceptions {
  import opened Wrappers

  datatype ExceptionKind =
    | DatabaseUnavailable
    | InvalidXml
    | UnrecognizedQuestionType
    | AnswerMismatch
    | InvalidQuestion
    | Unauthorized
    | PublicKeyMissing
    | UserGroupNotFound
    | RedisUnavailable

  /** The kinds raised for content the client sent that cannot be ingested. */
  predicate IsContentRejection(k: ExceptionKind) {
    k.InvalidXml? || k.UnrecognizedQuestionType? || k.AnswerMismatch? || k.InvalidQuestion?
  }

  /** The kinds raised when a backing service cannot be reached. */
  predicate IsBackendFailure(k: ExceptionKind) {
    k.DatabaseUnavailable? || k.RedisUnavailable?
  }

  /** The HTTP status code each exception is constructed with. */
  function StatusCode(k: ExceptionKind): (code: int)
    ensures IsContentRejection(k) <==> code == 422
    ensures IsBackendFailure(k) <==> code == 500
    ensures k.Unauthorized? <==> code == 401
    ensures k.PublicKeyMissing? <==> code == 501
    ensures k.UserGroupNotFound? <==> code == 404
  {
    match k
    case DatabaseUnavailable => 500
    case InvalidXml => 422
    case UnrecognizedQuestionType => 422
    case AnswerMismatch => 422
    case InvalidQuestion => 422
    case Unauthorized => 401
    case PublicKeyMissing => 501
    case UserGroupNotFound => 404
    case RedisUnavailable => 500
  }

  /** The detail message an exception carries when it is raised without one. */
  function DefaultDetail(k: ExceptionKind): (d: string)
    ensures d != []
  {
    match k
    case DatabaseUnavailable => "Failed to connect to the database"
    case InvalidXml => "Invalid XML structure"
    case UnrecognizedQuestionType => "Unrecognized question type encountered"
    case AnswerMismatch => "Answers' type does not match the one expected by Question"
    case InvalidQuestion => "Invalid Question contents received"
    case Unauthorized => "Unauthorized access to protected resource"
    case PublicKeyMissing => "Public Auth token not found. Set manually."
    case UserGroupNotFound => "Given User Group does not exist in database"
    case RedisUnavailable => "Failed to connect to Redis"
  }

  /** What a client receives for a raised exception. */
  datatype HttpException = HttpException(statusCode: int, detail: string)

  /** Raising kind `k`, with the given detail or, without one, the default. */
  function Raise(k: ExceptionKind, detail: Option<string>): (e: HttpException)
    ensures e.statusCode == StatusCode(k)
    ensures detail.None? ==> e.detail == DefaultDetail(k)
    ensures detail.Some? ==> e.detail == detail.value
  {
    HttpException(StatusCode(k), detail.GetOr(DefaultDetail(k)))
  }

  /** A raised error: one of the service's exceptions, or a plain Python exception. */
  datatype Error =
    | Http(kind: ExceptionKind)
    | ValueError
    | ValidationError   // pydantic rejected a field or a model
    | AttributeError    // an attribute looked up on None or on a model that lacks it
    | TypeError         // a call with the wrong arguments, or indexing None
    | KeyError          // a named SQL parameter missing from the parameter dict

  /**
   * What pydantic reports when a validator raises `e`: a `ValueError` is
   * wrapped into a `ValidationError`, anything else propagates as it is.
   */
  function ValidatorRaised(e: Error): (r: Error)
    ensures r == ValidationError <==> e == ValueError || e == ValidationError
    ensures e != ValueError ==> r == e
  {
    if e == ValueError then ValidationError else e
  }

  /**
   * What `raise ValidationError(message)` raises: pydantic's
   * `ValidationError` has no constructor that takes a message, so building
   * it raises `TypeError` before anything else is raised.
   */
  const ValidationErrorFromMessage: Error := TypeError

  datatype Result<+T> = Ok(value: T) | Err(error: Error) {

    predicate IsFailure() {
      Err?
    }

    function PropagateFailure<U>(): Result<U>
      requires Err?
    {
      Err(error)
    }

    function Extract(): T
      requires Ok?
    {
      value
    }
  }

}
