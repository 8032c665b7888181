/** The last middleware: what a thrown error becomes on the wire. Known database codes
    are tried first, then known error names, then a generic answer. */
module ErrorHandler {
  import opened Common
  import opened Store

  /** The properties of a thrown error the handler reads; a missing or falsy one is None
      (a status of 0 counts as missing, as `||` treats it). */
  datatype ThrownError = ThrownError(
    code: Option<string>, name: string, target: Option<seq<string>>, errors: Option<Json>,
    status: Option<nat>, message: Option<string>, stack: Option<string>)

  datatype ErrorResponse = ErrorResponse(
    status: nat, message: string, field: Option<string>, errors: Option<Json>, stack: Option<string>)

  function Plain(status: nat, message: string): ErrorResponse {
    ErrorResponse(status, message, None, None, None)
  }

  /** `error.meta?.target?.[0] || 'unknown'` */
  function DuplicateField(target: Option<seq<string>>): (f: string)
    ensures target.Some? && |target.value| > 0 && target.value[0] != [] ==> f == target.value[0]
    ensures target.None? || |target.value| == 0 || target.value[0] == [] ==> f == "unknown"
  {
    if target.Some? && |target.value| > 0 && target.value[0] != [] then target.value[0] else "unknown"
  }

  function HandleError(e: ThrownError, nodeEnv: string): ErrorResponse {
    if e.code == Some("P2002") then ErrorResponse(400, "Duplicate entry", Some(DuplicateField(e.target)), None, None)
    else if e.code == Some("P2025") then Plain(404, "Record not found")
    else if e.name == "ValidationError" then ErrorResponse(400, "Validation error", None, e.errors, None)
    else if e.name == "JsonWebTokenError" then Plain(401, "Invalid token")
    else if e.name == "TokenExpiredError" then Plain(401, "Token expired")
    else
      ErrorResponse(if e.status.Some? && e.status.value != 0 then e.status.value else 500,
                    OrDefault(e.message, "Internal server error"), None, None,
                    if nodeEnv == "development" then e.stack else None)
  }

  /** The classification, case by case: a database code wins over any error name, and
      only the generic answer can carry a stack, and only in development. */
  lemma Classification(e: ThrownError, nodeEnv: string)
    ensures var r := HandleError(e, nodeEnv);
      && (e.code == Some("P2002") ==> r.status == 400 && r.message == "Duplicate entry" && r.field == Some(DuplicateField(e.target)))
      && (e.code == Some("P2025") ==> r == Plain(404, "Record not found"))
      && (e.code != Some("P2002") && e.code != Some("P2025") ==>
            && (e.name == "ValidationError" ==> r.status == 400 && r.errors == e.errors)
            && (e.name == "JsonWebTokenError" ==> r == Plain(401, "Invalid token"))
            && (e.name == "TokenExpiredError" ==> r == Plain(401, "Token expired")))
      && (r.stack.Some? ==> nodeEnv == "development" && r.stack == e.stack)
      && (r.field.Some? <==> e.code == Some("P2002"))
  {
  }

  /** An error nobody recognises keeps its own status and message, falling back to 500
      and "Internal server error". */
  lemma Fallback(e: ThrownError, nodeEnv: string)
    requires e.code != Some("P2002") && e.code != Some("P2025")
    requires e.name !in {"ValidationError", "JsonWebTokenError", "TokenExpiredError"}
    ensures var r := HandleError(e, nodeEnv);
      && (e.status.None? ==> r.status == 500)
      && (e.status.Some? && e.status.value > 0 ==> r.status == e.status.value)
      && (e.message.None? ==> r.message == "Internal server error")
      && (e.message.Some? && e.message.value != [] ==> r.message == e.message.value)
      && (nodeEnv == "development" ==> r.stack == e.stack)
      && (nodeEnv != "development" ==> r.stack.None?)
  {
  }

  /** The error the query layer throws for each failure the route models report;
      `message` is the library's own text and `stack` the error's stack trace. A
      missing foreign key (P2003) and an argument the query layer refuses have no
      branch of their own. */
  function Thrown(err: DbError, message: string, stack: Option<string>): ThrownError {
    match err
    case UniqueViolation(target) => ThrownError(Some("P2002"), "PrismaClientKnownRequestError", Some(target), None, None, Some(message), stack)
    case RecordNotFound => ThrownError(Some("P2025"), "PrismaClientKnownRequestError", None, None, None, Some(message), stack)
    case ForeignKeyViolation => ThrownError(Some("P2003"), "PrismaClientKnownRequestError", None, None, None, Some(message), stack)
    case InvalidArgument => ThrownError(None, "PrismaClientValidationError", None, None, None, Some(message), stack)
  }

  /** What the client sees when a route hands a database failure on: a duplicate is
      400 naming its first column, a missing record 404, and anything else a 500 with
      the library's message, carrying the error's stack in development only. */
  lemma DatabaseFailures(err: DbError, message: string, stack: Option<string>, nodeEnv: string)
    ensures var r := HandleError(Thrown(err, message, stack), nodeEnv);
      && (err.UniqueViolation? ==> r.status == 400 && r.message == "Duplicate entry" && r.stack.None? &&
                                   r.field == Some(if |err.target| > 0 && err.target[0] != [] then err.target[0] else "unknown"))
      && (err.RecordNotFound? ==> r == Plain(404, "Record not found"))
      && (err.ForeignKeyViolation? || err.InvalidArgument? ==>
            && r.status == 500 && r.message == OrDefault(Some(message), "Internal server error")
            && (nodeEnv == "development" ==> r.stack == stack)
            && (nodeEnv != "development" ==> r.stack.None?))
  {
  }
}
