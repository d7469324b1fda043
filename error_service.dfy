/**
 * The client's error-message extraction, PisciApp/src/app/core/services/error.service.ts.
 *
 * Error values are JSON-like: an object is its own properties in JavaScript's
 * property order, so `Object.values(o)[0]` is the value of its first
 * property (names are distinct). Reading a property of anything that is not an object gives
 * `undefined`. The message may come from the body itself (case 6 returns
 * whatever the first array holds), so the result is a value, not only a string.
 */
module ErrorMessages {
  import opened Wrappers
  import opened Strings
  import opened Decimal

  datatype JsValue =
    | JUndefined
    | JNull
    | JBool(b: bool)
    | JNum(n: int)
    | JStr(s: string)
    | JArr(items: seq<JsValue>)
    | JObj(props: seq<(string, JsValue)>)

  /** The error handed to `getErrorMessage`: an `HttpErrorResponse`, or anything else. */
  datatype AppError =
    | HttpError(status: int, statusText: string, body: JsValue)
    | OtherError(value: JsValue)

  /** `v?.key` for the keys used here: the first property of that name, else `undefined`. */
  function Get(v: JsValue, key: string): (r: JsValue)
    ensures !v.JObj? ==> r == JUndefined
  {
    if v.JObj? then Lookup(v.props, key) else JUndefined
  }

  function Lookup(props: seq<(string, JsValue)>, key: string): JsValue {
    if props == [] then JUndefined
    else if props[0].0 == key then props[0].1
    else Lookup(props[1..], key)
  }

  /** `x && typeof x === 'string'`: a non-empty string. */
  predicate NonEmptyString(v: JsValue) {
    v.JStr? && v.s != ""
  }

  /** `Object.values(v)`, for the objects and arrays `typeof v === 'object'` admits. */
  function Values(v: JsValue): seq<JsValue> {
    match v
    case JObj(props) => seq(|props|, i requires 0 <= i < |props| => props[i].1)
    case JArr(items) => items
    case _ => []
  }

  /** Case 6 applies: `errors` is an object or array whose first value is a non-empty array. */
  predicate FirstErrorApplies(body: JsValue) {
    var errors := Get(body, "errors");
    (errors.JObj? || errors.JArr?) && |Values(errors)| > 0
    && Values(errors)[0].JArr? && |Values(errors)[0].items| > 0
  }

  /** The message for a status when the body says nothing usable. */
  function StatusMessage(status: int, statusText: string): (m: string)
    ensures m != ""
  {
    match status
    case 0 => "No se pudo conectar con el servidor. Verifica tu conexión."
    case 400 => "Los datos enviados no son válidos."
    case 401 => "Credenciales inválidas. Verifica tu usuario y contraseña."
    case 403 => "No tienes permisos para realizar esta acción."
    case 404 => "El recurso solicitado no existe."
    case 422 => "Los datos enviados contienen errores."
    case 500 => "Error interno del servidor. Intenta más tarde."
    case 502 => "El servidor no está disponible temporalmente."
    case 503 => "El servicio no está disponible. Intenta más tarde."
    case _ => "Error del servidor (" + IntToText(status) + "): " + (if statusText != "" then statusText else "Error desconocido")
  }

  const MsgInesperado: string := "Ocurrió un error inesperado. Intenta nuevamente."

  /** `getErrorMessage`: the first of seven sources that gives something, in a fixed order. */
  function GetErrorMessage(e: AppError): (r: JsValue)
    ensures e.HttpError? && !FirstErrorApplies(e.body) ==> NonEmptyString(r)
    ensures e.OtherError? ==> NonEmptyString(r)
  {
    match e
    case HttpError(status, statusText, body) =>
      if NonEmptyString(Get(body, "error")) then Get(body, "error")
      else if NonEmptyString(Get(body, "message")) then Get(body, "message")
      else if body.JStr? && Trim(body.s) != "" then body
      else if NonEmptyString(Get(body, "msg")) then Get(body, "msg")
      else if NonEmptyString(Get(body, "detail")) then Get(body, "detail")
      else if FirstErrorApplies(body) then Values(Get(body, "errors"))[0].items[0]
      else JStr(StatusMessage(status, statusText))
    case OtherError(value) =>
      if NonEmptyString(Get(value, "message")) then Get(value, "message")
      else if value.JStr? && Trim(value.s) != "" then value
      else JStr(MsgInesperado)
  }

  /** `handleError` emits `{ message }` holding exactly `getErrorMessage`'s result. */
  function HandleError(e: AppError): (emitted: JsValue)
    ensures Get(emitted, "message") == GetErrorMessage(e)
    ensures emitted.JObj? && |emitted.props| == 1
  {
    JObj([("message", GetErrorMessage(e))])
  }

  /** A non-empty string `error` field wins over every other field. */
  lemma ErrorFieldWins(status: int, statusText: string, rest: seq<(string, JsValue)>, m: string)
    requires m != ""
    ensures GetErrorMessage(HttpError(status, statusText, JObj([("error", JStr(m))] + rest))) == JStr(m)
  {
  }

  /** Without a usable `error`, a non-empty string `message` comes next, whatever the rest of the body holds. */
  lemma MessageFieldSecond(status: int, statusText: string, body: JsValue)
    requires !NonEmptyString(Get(body, "error")) && NonEmptyString(Get(body, "message"))
    ensures GetErrorMessage(HttpError(status, statusText, body)) == Get(body, "message")
  {
  }

  /** A string body with something besides whitespace is returned untrimmed. */
  lemma StringBodyUntrimmed(status: int, statusText: string, s: string)
    requires Trim(s) != ""
    ensures GetErrorMessage(HttpError(status, statusText, JStr(s))) == JStr(s)
  {
  }

  /** A body holding only whitespace falls through to the status table. */
  lemma BlankBodyUsesStatus(status: int, statusText: string, s: string)
    requires Trim(s) == ""
    ensures GetErrorMessage(HttpError(status, statusText, JStr(s))) == JStr(StatusMessage(status, statusText))
  {
  }

  /** Without `error` or `message`, an object's non-empty string `msg` comes next; a string body has no `msg`. */
  lemma MsgFieldFourth(status: int, statusText: string, body: JsValue)
    requires !NonEmptyString(Get(body, "error")) && !NonEmptyString(Get(body, "message"))
    requires NonEmptyString(Get(body, "msg"))
    ensures body.JObj?
    ensures GetErrorMessage(HttpError(status, statusText, body)) == Get(body, "msg")
  {
  }

  /** Without `error`, `message` or `msg`, a non-empty string `detail` comes next. */
  lemma DetailFieldFifth(status: int, statusText: string, body: JsValue)
    requires !NonEmptyString(Get(body, "error")) && !NonEmptyString(Get(body, "message")) && !NonEmptyString(Get(body, "msg"))
    requires NonEmptyString(Get(body, "detail"))
    ensures body.JObj?
    ensures GetErrorMessage(HttpError(status, statusText, body)) == Get(body, "detail")
  {
  }

  /** With none of the four message fields usable, validation errors give the first entry of the first list. */
  lemma FirstValidationError(status: int, statusText: string, body: JsValue)
    requires !NonEmptyString(Get(body, "error")) && !NonEmptyString(Get(body, "message"))
    requires !NonEmptyString(Get(body, "msg")) && !NonEmptyString(Get(body, "detail"))
    requires FirstErrorApplies(body)
    ensures body.JObj?
    ensures GetErrorMessage(HttpError(status, statusText, body)) == Values(Get(body, "errors"))[0].items[0]
  {
  }

  /** When the body offers nothing usable, the status table decides. */
  lemma StatusFallback(status: int, statusText: string, body: JsValue)
    requires !NonEmptyString(Get(body, "error")) && !NonEmptyString(Get(body, "message"))
    requires !NonEmptyString(Get(body, "msg")) && !NonEmptyString(Get(body, "detail"))
    requires !FirstErrorApplies(body) && !(body.JStr? && Trim(body.s) != "")
    ensures GetErrorMessage(HttpError(status, statusText, body)) == JStr(StatusMessage(status, statusText))
  {
  }

  /**
   * Anything that is not an HTTP error: its non-empty string `message`; else
   * the value itself when it is a string with something besides whitespace;
   * else the generic message.
   */
  lemma OtherErrorPrecedence(v: JsValue)
    ensures NonEmptyString(Get(v, "message")) ==> GetErrorMessage(OtherError(v)) == Get(v, "message")
    ensures v.JStr? && Trim(v.s) != "" ==> GetErrorMessage(OtherError(v)) == v
    ensures !NonEmptyString(Get(v, "message")) && !(v.JStr? && Trim(v.s) != "") ==>
      GetErrorMessage(OtherError(v)) == JStr(MsgInesperado)
  {
  }

  /** The statuses the switch lists by number. */
  predicate Listed(status: int) {
    status in {0, 400, 401, 403, 404, 422, 500, 502, 503}
  }

  /** No ')' in the string. */
  predicate NoCloseParen(x: string) {
    forall i :: 0 <= i < |x| ==> x[i] != ')'
  }

  /** The decimal text of a number holds no ')'. */
  lemma IntTextNoCloseParen(n: int)
    ensures NoCloseParen(IntToText(n))
  {
    if n < 0 {
      var t := NatToText(-n);
      assert forall i :: 1 <= i < |IntToText(n)| ==> IntToText(n)[i] == t[i - 1];
    }
  }

  /** Behind a common prefix, a ')'-free middle that a ')' ends is determined by the whole. */
  lemma MiddleBeforeParen(p: string, x1: string, b1: string, x2: string, b2: string)
    requires p + x1 + b1 == p + x2 + b2
    requires NoCloseParen(x1) && NoCloseParen(x2)
    requires |b1| > 0 && b1[0] == ')' && |b2| > 0 && b2[0] == ')'
    ensures x1 == x2
  {
    var m := p + x1 + b1;
    var m2 := p + x2 + b2;
    assert x1 == m[|p|..|p| + |x1|];
    assert x2 == m2[|p|..|p| + |x2|];
  }

  /** The message of an unlisted status: the number between the prefix and "): ". */
  lemma UnlistedMessage(status: int, statusText: string)
    requires !Listed(status)
    ensures StatusMessage(status, statusText)
            == "Error del servidor (" + IntToText(status) + ("): " + (if statusText != "" then statusText else "Error desconocido"))
  {
  }

  /** Behind a common prefix, the number text that a ')' ends determines the number. */
  lemma NumberBeforeParen(p: string, s1: int, b1: string, s2: int, b2: string)
    requires p + IntToText(s1) + b1 == p + IntToText(s2) + b2
    requires |b1| > 0 && b1[0] == ')' && |b2| > 0 && b2[0] == ')'
    ensures s1 == s2
  {
    IntTextNoCloseParen(s1);
    IntTextNoCloseParen(s2);
    MiddleBeforeParen(p, IntToText(s1), b1, IntToText(s2), b2);
    IntToTextInjective(s1, s2);
  }

  /**
   * The default message names its status: two unlisted statuses never share a
   * message, whatever their status texts.
   */
  lemma UnlistedStatusIdentified(s1: int, t1: string, s2: int, t2: string)
    requires !Listed(s1) && !Listed(s2)
    requires StatusMessage(s1, t1) == StatusMessage(s2, t2)
    ensures s1 == s2
  {
    var b1 := "): " + (if t1 != "" then t1 else "Error desconocido");
    var b2 := "): " + (if t2 != "" then t2 else "Error desconocido");
    UnlistedMessage(s1, t1);
    UnlistedMessage(s2, t2);
    NumberBeforeParen("Error del servidor (", s1, b1, s2, b2);
  }
}
