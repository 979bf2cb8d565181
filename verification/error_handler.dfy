/**
 * The Express error handler's classification: which status, error type and
 * message the JSON error response carries for an error, and whether the
 * stack is exposed. Logging the error to a file and removing temporary
 * uploads are left out.
 */
module ErrorHandler {
  import opened Base

  /**
   * The parts of a thrown error the handler reads: whether it is a
   * `ValidationError`, its `name`, its `code`, its `statusCode` (`None` when
   * absent), its `message` ("" when absent), the multer `field`, and its stack.
   */
  datatype ServerError = ServerError(
    isValidationError: bool,
    name: string,
    code: Option<string>,
    statusCode: Option<int>,
    message: string,
    field: Option<string>,
    stack: string)

  datatype ErrorType = ServerErrorType | ValidationErrorType | FileUploadError | InvalidJson | FileNotFound | PermissionDenied

  /** The `type` string the response carries. */
  function TypeName(t: ErrorType): string
  {
    match t
    case ServerErrorType => "SERVER_ERROR"
    case ValidationErrorType => "VALIDATION_ERROR"
    case FileUploadError => "FILE_UPLOAD_ERROR"
    case InvalidJson => "INVALID_JSON"
    case FileNotFound => "FILE_NOT_FOUND"
    case PermissionDenied => "PERMISSION_DENIED"
  }

  /** Every error type is sent under its own name. */
  lemma TypeNameInjective(a: ErrorType, b: ErrorType)
    requires TypeName(a) == TypeName(b)
    ensures a == b
  {
  }

  /** The response: its status and the `error` object of `{success: false, error}`. */
  datatype ErrorResponse = ErrorResponse(status: int, errorType: ErrorType, message: string, stack: Option<string>)
  {
    /** The body's `success` flag, which is always `false`. */
    function Success(): bool
    {
      false
    }
  }

  const InternalServerError := "Internal server error"

  /** `err.statusCode || 500` */
  function DefaultStatus(err: ServerError): (s: int)
    ensures s != 0
    ensures err.statusCode.Some? && err.statusCode.value != 0 ==> s == err.statusCode.value
    ensures err.statusCode.None? || err.statusCode.value == 0 ==> s == 500
  {
    match err.statusCode
    case Some(s) => if s != 0 then s else 500
    case None => 500
  }

  /** `err.message || 'Internal server error'` */
  function DefaultMessage(err: ServerError): (m: string)
    ensures m != ""
    ensures err.message != "" ==> m == err.message
    ensures err.message == "" ==> m == "Internal server error"
  {
    if err.message != "" then err.message else InternalServerError
  }

  predicate IsMulter(err: ServerError)
  {
    !err.isValidationError && err.name == "MulterError"
  }

  predicate IsJsonSyntax(err: ServerError)
  {
    !err.isValidationError && IsJsonSyntaxAt(err)
  }

  predicate IsNotFound(err: ServerError)
  {
    !err.isValidationError && err.name != "MulterError" && !IsJsonSyntaxAt(err) && err.code == Some("ENOENT")
  }

  /** The JSON syntax test without the earlier branches' conditions. */
  predicate IsJsonSyntaxAt(err: ServerError)
  {
    err.name == "SyntaxError" && Contains(err.message, "JSON")
  }

  predicate IsPermission(err: ServerError)
  {
    && !err.isValidationError && err.name != "MulterError" && !IsJsonSyntaxAt(err) && err.code != Some("ENOENT")
    && (err.code == Some("EACCES") || err.code == Some("EPERM"))
  }

  /** None of the specific branches applies. */
  predicate IsOther(err: ServerError)
  {
    && !err.isValidationError && err.name != "MulterError" && !IsJsonSyntaxAt(err)
    && err.code != Some("ENOENT") && err.code != Some("EACCES") && err.code != Some("EPERM")
  }

  /**
   * `errorHandler(err)`: the branches are tried in order and exactly one
   * applies. A `ValidationError` keeps its status and message; a multer error
   * is a file upload error, with 413 and a fixed message for a size limit
   * and 400 naming the field for an unexpected one; a JSON syntax error is a
   * 400; `ENOENT` is a 404 keeping the message; `EACCES`/`EPERM` are a 403
   * with a fixed message; anything else is a server error whose message is
   * masked in production when its status is 500. The stack is sent only
   * outside production.
   */
  function HandleError(err: ServerError, production: bool): (r: ErrorResponse)
    ensures !r.Success()
    ensures r.stack.Some? <==> !production
    ensures r.stack.Some? ==> r.stack.value == err.stack
    ensures r.errorType == ValidationErrorType <==> err.isValidationError
    ensures r.errorType == FileUploadError <==> IsMulter(err)
    ensures r.errorType == InvalidJson <==> IsJsonSyntax(err)
    ensures r.errorType == FileNotFound <==> IsNotFound(err)
    ensures r.errorType == PermissionDenied <==> IsPermission(err)
    ensures r.errorType == ServerErrorType <==> IsOther(err)
    ensures err.isValidationError ==> r.status == DefaultStatus(err) && r.message == DefaultMessage(err)
    ensures IsMulter(err) && err.code == Some("LIMIT_FILE_SIZE") ==>
              r.status == 413 && r.message == "File too large. Maximum size: 10MB"
    ensures IsMulter(err) && err.code == Some("LIMIT_UNEXPECTED_FILE") ==>
              && r.status == 400
              && r.message == "Unexpected field: " + (match err.field case Some(f) => f case None => "undefined")
                              + ". Expected field name: 'image'"
    ensures IsMulter(err) && err.code != Some("LIMIT_FILE_SIZE") && err.code != Some("LIMIT_UNEXPECTED_FILE") ==>
              r.status == DefaultStatus(err) && r.message == DefaultMessage(err)
    ensures IsJsonSyntax(err) ==> r.status == 400 && r.message == "Invalid JSON provided"
    ensures IsNotFound(err) ==> r.status == 404 && r.message == DefaultMessage(err)
    ensures IsPermission(err) ==> r.status == 403 && r.message == "Operation not permitted"
    ensures IsOther(err) ==> r.status == DefaultStatus(err)
    ensures IsOther(err) ==>
              r.message == (if production && DefaultStatus(err) == 500 then InternalServerError else DefaultMessage(err))
  {
    var status := DefaultStatus(err);
    var message := DefaultMessage(err);
    var stack := if production then None else Some(err.stack);
    if err.isValidationError then ErrorResponse(status, ValidationErrorType, message, stack)
    else if err.name == "MulterError" then
      if err.code == Some("LIMIT_FILE_SIZE") then
        ErrorResponse(413, FileUploadError, "File too large. Maximum size: 10MB", stack)
      else if err.code == Some("LIMIT_UNEXPECTED_FILE") then
        var field := match err.field case Some(f) => f case None => "undefined";
        ErrorResponse(400, FileUploadError, "Unexpected field: " + field + ". Expected field name: 'image'", stack)
      else ErrorResponse(status, FileUploadError, message, stack)
    else if err.name == "SyntaxError" && Contains(err.message, "JSON") then
      ErrorResponse(400, InvalidJson, "Invalid JSON provided", stack)
    else if err.code == Some("ENOENT") then ErrorResponse(404, FileNotFound, message, stack)
    else if err.code == Some("EACCES") || err.code == Some("EPERM") then
      ErrorResponse(403, PermissionDenied, "Operation not permitted", stack)
    else if status == 500 && production then ErrorResponse(status, ServerErrorType, InternalServerError, stack)
    else ErrorResponse(status, ServerErrorType, message, stack)
  }

  /**
   * Running in production changes nothing but the stack and, for a server
   * error with status 500 only, the message.
   */
  lemma ProductionMasksOnlyServerErrors(err: ServerError)
    ensures HandleError(err, true).status == HandleError(err, false).status
    ensures HandleError(err, true).errorType == HandleError(err, false).errorType
    ensures HandleError(err, true).message != HandleError(err, false).message ==>
              && HandleError(err, true).errorType == ServerErrorType
              && HandleError(err, true).status == 500
              && HandleError(err, true).message == InternalServerError
  {
  }

  /** Every response status is one the handler chose or the error carried; none is 0. */
  lemma StatusNeverZero(err: ServerError, production: bool)
    ensures HandleError(err, production).status != 0
  {
  }
}
