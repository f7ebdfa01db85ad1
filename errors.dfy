/** `PlanlyError` and its fixed-code subclasses: a message, an HTTP status
    code, an error type text and a name. The free-form `details` payload is
    not part of this model. */
module Errors {
  import opened Wrappers

  datatype PlanlyError = PlanlyError(message: string, statusCode: int, errorType: string, name: string)

  /** The status codes `getDefaultErrorType` has an entry for. */
  const MappedCodes: set<int> := {400, 401, 403, 404, 409, 422, 429, 500, 502, 503}

  /** `getDefaultErrorType(statusCode)`: the table entry, and
      INTERNAL_SERVER_ERROR for every code without one. */
  function DefaultErrorType(statusCode: int): (r: string)
    ensures r != ""
    ensures statusCode !in MappedCodes ==> r == "INTERNAL_SERVER_ERROR"
    ensures r == "INTERNAL_SERVER_ERROR" <==> statusCode == 500 || statusCode !in MappedCodes
  {
    if statusCode == 400 then "BAD_REQUEST"
    else if statusCode == 401 then "UNAUTHORIZED"
    else if statusCode == 403 then "FORBIDDEN"
    else if statusCode == 404 then "NOT_FOUND"
    else if statusCode == 409 then "CONFLICT"
    else if statusCode == 422 then "UNPROCESSABLE_ENTITY"
    else if statusCode == 429 then "TOO_MANY_REQUESTS"
    else if statusCode == 500 then "INTERNAL_SERVER_ERROR"
    else if statusCode == 502 then "BAD_GATEWAY"
    else if statusCode == 503 then "SERVICE_UNAVAILABLE"
    else "INTERNAL_SERVER_ERROR"
  }

  /** The reverse reading of the table: the code a default error type
      stands for. */
  function CodeOfType(errorType: string): Option<int> {
    if errorType == "BAD_REQUEST" then Some(400)
    else if errorType == "UNAUTHORIZED" then Some(401)
    else if errorType == "FORBIDDEN" then Some(403)
    else if errorType == "NOT_FOUND" then Some(404)
    else if errorType == "CONFLICT" then Some(409)
    else if errorType == "UNPROCESSABLE_ENTITY" then Some(422)
    else if errorType == "TOO_MANY_REQUESTS" then Some(429)
    else if errorType == "INTERNAL_SERVER_ERROR" then Some(500)
    else if errorType == "BAD_GATEWAY" then Some(502)
    else if errorType == "SERVICE_UNAVAILABLE" then Some(503)
    else None
  }

  /** Every mapped code has its own error type: the table reads back. */
  lemma DefaultErrorTypeReadsBack(statusCode: int)
    ensures statusCode in MappedCodes ==> CodeOfType(DefaultErrorType(statusCode)) == Some(statusCode)
    ensures statusCode !in MappedCodes ==> CodeOfType(DefaultErrorType(statusCode)) == Some(500)
  {
  }

  /** The `PlanlyError` constructor: the status code defaults to 500, an
      explicit non-empty error type wins, otherwise the table decides. */
  function NewError(message: string, statusCode: Option<int>, errorType: Option<string>): (e: PlanlyError)
    ensures e.message == message && e.name == "AppError"
    ensures statusCode.None? ==> e.statusCode == 500
    ensures statusCode.Some? ==> e.statusCode == statusCode.value
    ensures errorType.Some? && errorType.value != "" ==> e.errorType == errorType.value
    ensures errorType.None? || errorType.value == "" ==> e.errorType == DefaultErrorType(e.statusCode)
    ensures e.errorType != ""
  {
    var code := statusCode.GetOr(500);
    var kind := if errorType.Some? && errorType.value != "" then errorType.value else DefaultErrorType(code);
    PlanlyError(message, code, kind, "AppError")
  }

  function BadRequestError(message: string): PlanlyError {
    NewError(message, Some(400), Some("BAD_REQUEST")).(name := "BadRequestError")
  }

  function UnauthorizedError(message: Option<string>): PlanlyError {
    NewError(message.GetOr("Unauthorized"), Some(401), Some("UNAUTHORIZED")).(name := "UnauthorizedError")
  }

  function ForbiddenError(message: Option<string>): PlanlyError {
    NewError(message.GetOr("Acesso negado"), Some(403), Some("FORBIDDEN")).(name := "ForbiddenError")
  }

  function NotFoundError(message: Option<string>): PlanlyError {
    NewError(message.GetOr("Resource not found"), Some(404), Some("NOT_FOUND")).(name := "NotFoundError")
  }

  function ConflictError(message: Option<string>): PlanlyError {
    NewError(message.GetOr("Conflict"), Some(409), Some("CONFLICT")).(name := "ConflictError")
  }

  function ValidationError(message: Option<string>): PlanlyError {
    NewError(message.GetOr("Validation error"), Some(400), Some("VALIDATION_ERROR")).(name := "ValidationError")
  }

  function InternalServerError(message: Option<string>): PlanlyError {
    NewError(message.GetOr("Internal server error"), Some(500), Some("INTERNAL_SERVER_ERROR")).(name := "InternalServerError")
  }

  /** The fixed codes of the subclasses. Each passes the same error type the
      table gives its code, except `ValidationError`, which shares 400 with
      `BadRequestError` but reports VALIDATION_ERROR. */
  lemma SubclassCodes(m: string, o: Option<string>)
    ensures BadRequestError(m).statusCode == 400 && BadRequestError(m).errorType == "BAD_REQUEST"
    ensures UnauthorizedError(o).statusCode == 401 && UnauthorizedError(o).errorType == "UNAUTHORIZED"
    ensures ForbiddenError(o).statusCode == 403 && ForbiddenError(o).errorType == "FORBIDDEN"
    ensures NotFoundError(o).statusCode == 404 && NotFoundError(o).errorType == "NOT_FOUND"
    ensures ConflictError(o).statusCode == 409 && ConflictError(o).errorType == "CONFLICT"
    ensures InternalServerError(o).statusCode == 500 && InternalServerError(o).errorType == "INTERNAL_SERVER_ERROR"
    ensures ValidationError(o).statusCode == 400 && ValidationError(o).errorType == "VALIDATION_ERROR"
    ensures forall e :: e in {BadRequestError(m), UnauthorizedError(o), ForbiddenError(o), NotFoundError(o),
                              ConflictError(o), InternalServerError(o)}
                        ==> e.errorType == DefaultErrorType(e.statusCode)
    ensures ValidationError(o).errorType != DefaultErrorType(ValidationError(o).statusCode)
    ensures o.None? ==> NotFoundError(o).message == "Resource not found"
  {
  }
}
