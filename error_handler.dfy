/**
 * The Express error middleware: an ordered chain of checks on a thrown error
 * that picks the HTTP status and the JSON body sent to the client.
 */
module ErrorHandler {
  import opened Wrappers

  /** The fields of a thrown error that the handler inspects; a field the error lacks is None. */
  datatype AppError = AppError(
    code: Option<string>,
    name: Option<string>,
    statusCode: Option<int>,
    message: Option<string>,
    stack: Option<string>)

  /** The response: its status and its JSON body. `stack` is None when the body has no such key. */
  datatype ErrorResponse = ErrorResponse(status: int, success: bool, message: string, stack: Option<string>)

  /** PostgreSQL SQLSTATE for unique_violation. */
  const UniqueViolation := "23505"
  /** PostgreSQL SQLSTATE for foreign_key_violation. */
  const ForeignKeyViolation := "23503"

  const DuplicateMessage := "Duplicate entry - resource already exists"
  const ForeignKeyMessage := "Foreign key constraint violation"
  const InvalidTokenMessage := "Invalid token"
  const ExpiredTokenMessage := "Token expired"
  const DefaultMessage := "Server Error"

  /** A database error the handler recognises by its code. */
  predicate IsDatabaseError(err: AppError) {
    err.code == Some(UniqueViolation) || err.code == Some(ForeignKeyViolation)
  }

  /** A token error the handler recognises by its name. */
  predicate IsTokenError(err: AppError) {
    err.name == Some("JsonWebTokenError") || err.name == Some("TokenExpiredError")
  }

  /** `err.statusCode || 500`: a missing or zero status code falls back to 500. */
  function StatusOrDefault(statusCode: Option<int>): (s: int)
    ensures s == 500 || statusCode == Some(s)
    ensures s != 0
    ensures statusCode.Some? && statusCode.value != 0 ==> s == statusCode.value
    ensures statusCode.None? || statusCode == Some(0) ==> s == 500
  {
    if statusCode.Some? && statusCode.value != 0 then statusCode.value else 500
  }

  /** `err.message || 'Server Error'`: a missing or empty message falls back to the default. */
  function MessageOrDefault(message: Option<string>): (m: string)
    ensures m != ""
    ensures m == DefaultMessage || message == Some(m)
    ensures message.Some? && message.value != "" ==> m == message.value
    ensures message.None? || message == Some("") ==> m == DefaultMessage
  {
    if message.Some? && message.value != "" then message.value else DefaultMessage
  }

  function HandleError(err: AppError, nodeEnv: Option<string>): (r: ErrorResponse)
    // every branch reports failure
    ensures !r.success
    // the stack trace leaves the server only in development, and only from the last branch
    ensures r.stack.Some? ==> nodeEnv == Some("development") && !IsDatabaseError(err) && !IsTokenError(err)
    // database codes win over everything else
    ensures IsDatabaseError(err) ==> r.status == 400
    ensures !IsDatabaseError(err) && IsTokenError(err) ==> r.status == 401
    ensures !IsDatabaseError(err) && !IsTokenError(err) ==>
              && r.status == StatusOrDefault(err.statusCode)
              && r.message == MessageOrDefault(err.message)
              && r.stack == (if nodeEnv == Some("development") then err.stack else None)
  {
    if err.code == Some(UniqueViolation) then
      ErrorResponse(400, false, DuplicateMessage, None)
    else if err.code == Some(ForeignKeyViolation) then
      ErrorResponse(400, false, ForeignKeyMessage, None)
    else if err.name == Some("JsonWebTokenError") then
      ErrorResponse(401, false, InvalidTokenMessage, None)
    else if err.name == Some("TokenExpiredError") then
      ErrorResponse(401, false, ExpiredTokenMessage, None)
    else
      ErrorResponse(StatusOrDefault(err.statusCode), false, MessageOrDefault(err.message),
                    if nodeEnv == Some("development") then err.stack else None)
  }

  /** Code 23505 is answered with 400 and the duplicate-entry message, whatever else the error says. */
  lemma DuplicateKeyResponse(err: AppError, nodeEnv: Option<string>)
    requires err.code == Some(UniqueViolation)
    ensures HandleError(err, nodeEnv) == ErrorResponse(400, false, DuplicateMessage, None)
  {
  }

  /** Code 23503 is answered with 400 and the foreign-key message, whatever else the error says. */
  lemma ForeignKeyResponse(err: AppError, nodeEnv: Option<string>)
    requires err.code == Some(ForeignKeyViolation)
    ensures HandleError(err, nodeEnv) == ErrorResponse(400, false, ForeignKeyMessage, None)
  {
  }

  /** Without a database code, the two token error names are answered with 401. */
  lemma TokenErrorResponses(err: AppError, nodeEnv: Option<string>)
    requires !IsDatabaseError(err)
    ensures err.name == Some("JsonWebTokenError") ==>
              HandleError(err, nodeEnv) == ErrorResponse(401, false, InvalidTokenMessage, None)
    ensures err.name == Some("TokenExpiredError") ==>
              HandleError(err, nodeEnv) == ErrorResponse(401, false, ExpiredTokenMessage, None)
  {
  }

  /**
   * Precedence: once the code is a recognised database code, the error's name,
   * status code, message and stack, and the environment, make no difference.
   */
  lemma DatabaseCodeDecides(err: AppError, other: AppError, env: Option<string>, otherEnv: Option<string>)
    requires IsDatabaseError(err) && other.code == err.code
    ensures HandleError(err, env) == HandleError(other, otherEnv)
    ensures HandleError(err, env).status == 400
  {
  }

  /** An error whose code is 23505 and whose name is TokenExpiredError is a 400, not a 401. */
  lemma DuplicateBeatsExpiredToken(err: AppError, nodeEnv: Option<string>)
    requires err.code == Some(UniqueViolation) && err.name == Some("TokenExpiredError")
    ensures HandleError(err, nodeEnv).status == 400
    ensures HandleError(err, nodeEnv).message == DuplicateMessage
  {
  }

  /** The fallback branch: status code or 500, message or "Server Error", stack only in development. */
  lemma FallbackResponse(err: AppError, nodeEnv: Option<string>)
    requires !IsDatabaseError(err) && !IsTokenError(err)
    ensures var r := HandleError(err, nodeEnv);
      && r.status == (if err.statusCode == None || err.statusCode == Some(0) then 500 else err.statusCode.value)
      && r.message == (if err.message == None || err.message == Some("") then DefaultMessage else err.message.value)
      && r.stack == (if nodeEnv == Some("development") then err.stack else None)
  {
  }

  /**
   * A 401 comes from a token error name, or from an unrecognised error that
   * carries statusCode 401 itself.
   */
  lemma UnauthorizedOnlyFromTokenOrOwnStatus(err: AppError, nodeEnv: Option<string>)
    ensures HandleError(err, nodeEnv).status == 401 <==>
              !IsDatabaseError(err) && (IsTokenError(err) || err.statusCode == Some(401))
  {
  }
}
