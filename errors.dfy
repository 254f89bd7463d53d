/**
 * The server's error type (src/error.rs): every failure a handler reports is
 * an ErrorKind, answered with an HTTP status (RFC 9110 section 15, RFC 6585
 * section 4 for 429) and a Matrix errcode.
 */
module Errors {
  import opened Json
  import AddEvent

  /** serde_json's classification of a JSON error. */
  datatype JsonCategory = Io | Syntax | Data | Eof

  /** A serde_json error: its category and its rendered message. */
  datatype JsonError = JsonError(category: JsonCategory, message: string)

  /** actix's JSON payload error: a body that failed to deserialize, or another failure (its message). */
  datatype JsonPayloadError = Deserialize(error: JsonError) | OtherPayloadError(message: string)

  /** Foreign errors keep only their rendered message. */
  datatype ErrorKind =
    | Forbidden
    | UnknownToken
    | MissingToken
    | BadJson(message: string)
    | NotJson(message: string)
    | NotFound
    | UserNotFound(user: string)
    | RoomNotFound(room: string)
    | LimitExceeded
    | MissingParam(param: string)
    | InvalidParam(param: string)
    | UnsupportedRoomVersion
    | TxnIdExists
    | UrlNotUtf8(message: string)
    | DbError
    | PasswordError(message: string)
    | Unimplemented
    | AddEventError(error: AddEvent.AddEventError)
    | Unknown(message: string)

  /** The error handlers return; the span trace is diagnostics only. */
  datatype Error = Error(inner: ErrorKind)

  const BadRequest: nat := 400        // RFC 9110 section 15.5.1
  const ForbiddenStatus: nat := 403   // RFC 9110 section 15.5.4
  const NotFoundStatus: nat := 404    // RFC 9110 section 15.5.5
  const TooManyRequests: nat := 429   // RFC 6585 section 4
  const InternalServerError: nat := 500 // RFC 9110 section 15.6.1
  const NotImplemented: nat := 501    // RFC 9110 section 15.6.2

  predicate IsNotFoundFamily(k: ErrorKind) {
    k.NotFound? || k.UserNotFound? || k.RoomNotFound?
  }

  predicate IsTokenOrForbidden(k: ErrorKind) {
    k.Forbidden? || k.UnknownToken? || k.MissingToken?
  }

  predicate IsBadRequestKind(k: ErrorKind) {
    k.BadJson? || k.NotJson? || k.MissingParam? || k.InvalidParam? || k.UnsupportedRoomVersion? ||
    k.UrlNotUtf8? || k.PasswordError? || k.Unknown? || k.TxnIdExists?
  }

  /** The kinds answered with the generic M_UNKNOWN errcode. */
  predicate IsUnknownCodeKind(k: ErrorKind) {
    k.TxnIdExists? || k.UrlNotUtf8? || k.DbError? || k.PasswordError? || k.Unimplemented? ||
    k.AddEventError? || k.Unknown?
  }

  /** `status_code`: a total map from kinds to the six statuses. */
  function StatusCode(e: Error): (s: nat)
    ensures s in {BadRequest, ForbiddenStatus, NotFoundStatus, TooManyRequests, InternalServerError, NotImplemented}
    ensures s == ForbiddenStatus <==> IsTokenOrForbidden(e.inner)
    ensures s == NotFoundStatus <==> IsNotFoundFamily(e.inner)
    ensures s == TooManyRequests <==> e.inner.LimitExceeded?
    ensures s == InternalServerError <==> e.inner.DbError? || e.inner.AddEventError?
    ensures s == NotImplemented <==> e.inner.Unimplemented?
    ensures s == BadRequest <==> IsBadRequestKind(e.inner)
  {
    match e.inner
    case Forbidden => ForbiddenStatus
    case UnknownToken => ForbiddenStatus
    case MissingToken => ForbiddenStatus
    case NotFound => NotFoundStatus
    case UserNotFound(_) => NotFoundStatus
    case RoomNotFound(_) => NotFoundStatus
    case BadJson(_) => BadRequest
    case NotJson(_) => BadRequest
    case MissingParam(_) => BadRequest
    case InvalidParam(_) => BadRequest
    case UnsupportedRoomVersion => BadRequest
    case UrlNotUtf8(_) => BadRequest
    case PasswordError(_) => BadRequest
    case Unknown(_) => BadRequest
    case TxnIdExists => BadRequest
    case LimitExceeded => TooManyRequests
    case DbError => InternalServerError
    case AddEventError(_) => InternalServerError
    case Unimplemented => NotImplemented
  }

  /** The errcode of the response body: exactly one per kind. */
  function Errcode(e: Error): (c: string)
    ensures c == "M_NOT_FOUND" <==> IsNotFoundFamily(e.inner)
    ensures c == "M_UNKNOWN" <==> IsUnknownCodeKind(e.inner)
    ensures c == "M_BAD_JSON" <==> e.inner.BadJson?
    ensures c == "M_NOT_JSON" <==> e.inner.NotJson?
    ensures c == "M_FORBIDDEN" <==> e.inner.Forbidden?
    ensures c == "M_UNKNOWN_TOKEN" <==> e.inner.UnknownToken?
    ensures c == "M_MISSING_TOKEN" <==> e.inner.MissingToken?
    ensures c == "M_LIMIT_EXCEEDED" <==> e.inner.LimitExceeded?
    ensures c == "M_MISSING_PARAM" <==> e.inner.MissingParam?
    ensures c == "M_INVALID_PARAM" <==> e.inner.InvalidParam?
    ensures c == "M_UNSUPPORTED_ROOM_VERSION" <==> e.inner.UnsupportedRoomVersion?
  {
    match e.inner
    case Forbidden => "M_FORBIDDEN"
    case UnknownToken => "M_UNKNOWN_TOKEN"
    case MissingToken => "M_MISSING_TOKEN"
    case BadJson(_) => "M_BAD_JSON"
    case NotJson(_) => "M_NOT_JSON"
    case NotFound => "M_NOT_FOUND"
    case UserNotFound(_) => "M_NOT_FOUND"
    case RoomNotFound(_) => "M_NOT_FOUND"
    case LimitExceeded => "M_LIMIT_EXCEEDED"
    case MissingParam(_) => "M_MISSING_PARAM"
    case InvalidParam(_) => "M_INVALID_PARAM"
    case UnsupportedRoomVersion => "M_UNSUPPORTED_ROOM_VERSION"
    case TxnIdExists => "M_UNKNOWN"
    case UrlNotUtf8(_) => "M_UNKNOWN"
    case DbError => "M_UNKNOWN"
    case PasswordError(_) => "M_UNKNOWN"
    case Unimplemented => "M_UNKNOWN"
    case AddEventError(_) => "M_UNKNOWN"
    case Unknown(_) => "M_UNKNOWN"
  }

  /**
   * `error_response`: the status and the JSON body holding the errcode and
   * the rendered error (`display`, since formatting is not modelled).
   */
  function ErrorResponse(e: Error, display: string): (r: (nat, Json))
    ensures r.0 == StatusCode(e)
    ensures r.1.JObj? && r.1.fields.Keys == {"errcode", "error"}
    ensures r.1.fields["errcode"] == JStr(Errcode(e)) && r.1.fields["error"] == JStr(display)
  {
    (StatusCode(e), JObj(map["errcode" := JStr(Errcode(e)), "error" := JStr(display)]))
  }

  /** Server errors never leak a specific errcode: every 5xx answer says M_UNKNOWN. */
  lemma ServerErrorsAreUnknown(e: Error)
    requires StatusCode(e) >= 500
    ensures Errcode(e) == "M_UNKNOWN"
  {
  }

  /**
   * A specific errcode fixes the status: two errors with the same errcode
   * other than M_UNKNOWN are answered with the same status.
   */
  lemma SpecificErrcodeFixesStatus(e1: Error, e2: Error)
    requires Errcode(e1) == Errcode(e2) && Errcode(e1) != "M_UNKNOWN"
    ensures StatusCode(e1) == StatusCode(e2)
  {
  }

  /** `From<serde_json::Error>`: a data error is BadJson, any other category NotJson. */
  function FromJsonError(e: JsonError): (k: ErrorKind)
    ensures e.category == Data <==> k == BadJson(e.message)
    ensures e.category != Data <==> k == NotJson(e.message)
  {
    match e.category
    case Data => BadJson(e.message)
    case _ => NotJson(e.message)
  }

  /** `From<Utf8Error>` and `From<FromUtf8Error>`: invalid UTF-8 is NotJson. */
  function FromUtf8Error(message: string): (k: ErrorKind)
    ensures k.NotJson? && k.message == message
  {
    NotJson(message)
  }

  /** `From<JsonPayloadError>`: a deserialisation failure converts as a JSON error, anything else is Unknown. */
  function FromJsonPayloadError(e: JsonPayloadError): (k: ErrorKind)
    ensures e.Deserialize? ==> k == FromJsonError(e.error)
    ensures e.OtherPayloadError? ==> k == Unknown(e.message)
  {
    match e
    case Deserialize(j) => FromJsonError(j)
    case OtherPayloadError(m) => Unknown(m)
  }

  /** Every malformed request body is answered with 400 Bad Request. */
  lemma BodyErrorsAreBadRequest(e: JsonPayloadError)
    ensures StatusCode(Error(FromJsonPayloadError(e))) == BadRequest
    ensures e.Deserialize? ==> Errcode(Error(FromJsonPayloadError(e))) in {"M_BAD_JSON", "M_NOT_JSON"}
  {
  }

  /** The conversions a handler's `?` can apply into an Error. */
  datatype ErrorSource =
    | FromKind(kind: ErrorKind)
    | FromJson(json: JsonError)
    | FromUtf8(utf8: string)
    | FromPayload(payload: JsonPayloadError)
    | FromPassword(password: string)
    | FromAddEvent(addEvent: AddEvent.AddEventError)

  /** The blanket `From`: convert into a kind, then wrap that kind unchanged. */
  function IntoError(src: ErrorSource): (e: Error)
    ensures src.FromKind? ==> e.inner == src.kind
    ensures src.FromJson? ==> e.inner == FromJsonError(src.json)
    ensures src.FromUtf8? ==> e.inner == NotJson(src.utf8)
    ensures src.FromPayload? ==> e.inner == FromJsonPayloadError(src.payload)
    ensures src.FromPassword? ==> e.inner == PasswordError(src.password)
    ensures src.FromAddEvent? ==> e.inner == AddEventError(src.addEvent) && StatusCode(e) == InternalServerError
  {
    var kind := match src
      case FromKind(k) => k
      case FromJson(j) => FromJsonError(j)
      case FromUtf8(m) => FromUtf8Error(m)
      case FromPayload(p) => FromJsonPayloadError(p)
      case FromPassword(m) => PasswordError(m)
      case FromAddEvent(a) => AddEventError(a);
    Error(kind)
  }
}
