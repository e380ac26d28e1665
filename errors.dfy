/** The service's error type and the HTTP response each error becomes
    (src/errors.rs). */
module Errors {
  import opened Models

  datatype StatusCode = StatusCode(code: nat) {
    predicate IsSuccess() { 200 <= code < 300 }
    predicate IsClientError() { 400 <= code < 500 }
    predicate IsServerError() { 500 <= code < 600 }
  }

  const StatusOk := StatusCode(200)
  const StatusCreated := StatusCode(201)
  const StatusNoContent := StatusCode(204)
  const StatusBadRequest := StatusCode(400)
  const StatusNotFound := StatusCode(404)
  const StatusInternalServerError := StatusCode(500)

  /** The failures a handler can return. The payloads of the identifier and
      database variants stand for the underlying library errors, rendered
      as text. */
  datatype AppError =
    | UuidParseError(uuidError: string)
    | ValidationError(errors: ValidationErrors)
    | SqlxError(databaseError: string)
    | NotFound
    | InternalServerError

  /** `AppResult<T>`. */
  datatype AppResult<T> = Ok(value: T) | Err(error: AppError)

  /** A JSON object whose values are all strings. */
  type JsonObject = map<string, string>

  datatype ErrorResponse = ErrorResponse(status: StatusCode, body: JsonObject)

  const ValidationPrefix := "Input validation failed: "
  const IdentifierMessage := "Error processing identifier."
  const DatabaseMessage := "An internal database error occurred."
  const NotFoundMessage := "The requested item was not found."
  const UnexpectedMessage := "An unexpected error occurred."

  /** The messages that carry nothing from the error they report. */
  const FixedMessages: set<string> := {IdentifierMessage, DatabaseMessage, NotFoundMessage, UnexpectedMessage}

  /** The text of a set of validation errors: one `field: message` line per error. */
  function DisplayErrors(errors: ValidationErrors): string {
    if errors == [] then ""
    else
      var line := errors[0].field + ": " + errors[0].message;
      if |errors| == 1 then line else line + "\n" + DisplayErrors(errors[1..])
  }

  /** The body shape shared by all errors. */
  function ErrorBody(message: string): (body: JsonObject)
    ensures body.Keys == {"error"} && body["error"] == message
  {
    map["error" := message]
  }

  /** `into_response`: the status and `{"error": message}` body of each error. */
  function IntoResponse(e: AppError): (r: ErrorResponse)
    ensures r.body.Keys == {"error"}
    ensures r.status.IsClientError() <==> (e.ValidationError? || e.NotFound?)
    ensures r.status.IsServerError() <==> !(e.ValidationError? || e.NotFound?)
    ensures r.status == StatusBadRequest <==> e.ValidationError?
    ensures r.status == StatusNotFound <==> e.NotFound?
    ensures r.status.IsServerError() ==> r.status == StatusInternalServerError
    ensures e.ValidationError? ==> r.body["error"] == ValidationPrefix + DisplayErrors(e.errors)
    ensures !e.ValidationError? ==> r.body["error"] in FixedMessages
    ensures e.NotFound? ==> r.body["error"] == NotFoundMessage
  {
    var (status, message) :=
      match e
      case ValidationError(errors) => (StatusBadRequest, ValidationPrefix + DisplayErrors(errors))
      case UuidParseError(_) => (StatusInternalServerError, IdentifierMessage)
      case SqlxError(_) => (StatusInternalServerError, DatabaseMessage)
      case NotFound => (StatusNotFound, NotFoundMessage)
      case InternalServerError => (StatusInternalServerError, UnexpectedMessage);
    ErrorResponse(status, ErrorBody(message))
  }

  /** The response to an identifier or database error is the same whatever
      the underlying error was: no detail reaches the client. */
  lemma ServerErrorsHideDetail(d1: string, d2: string)
    ensures IntoResponse(UuidParseError(d1)) == IntoResponse(UuidParseError(d2))
    ensures IntoResponse(SqlxError(d1)) == IntoResponse(SqlxError(d2))
  {
  }

  /** The three server errors are told apart by their message alone. */
  lemma ServerErrorMessagesDistinct(e1: AppError, e2: AppError)
    requires IntoResponse(e1).status.IsServerError() && IntoResponse(e2).status.IsServerError()
    requires IntoResponse(e1).body == IntoResponse(e2).body
    ensures e1.UuidParseError? == e2.UuidParseError?
    ensures e1.SqlxError? == e2.SqlxError?
    ensures e1.InternalServerError? == e2.InternalServerError?
  {
  }
}
