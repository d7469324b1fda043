/**
 * The client's registration form,
 * PisciApp/src/app/features/auth/pages/register/register.component.ts.
 *
 * The form's controls, their validators and the group validator that compares
 * the two passwords; the payload `onSubmit` posts; and the message it shows
 * when the request fails. Angular's e-mail validator is a function parameter.
 * The posted body is a JSON object, modelled as its (key, value) pairs in
 * property order; the backend reads it by key as `Usuarios.RegistroBody`.
 */
module RegisterForm {
  import opened Wrappers
  import opened Strings
  import opened PasswordPolicy
  import Usuarios
  import opened ErrorMessages

  // ---------------------------------------------------------------- the phone pattern

  /** The number of consecutive ASCII digits of `s` from index `i`: how far `\d` repeats. */
  function DigitRun(s: string, i: nat): (n: nat)
    requires i <= |s|
    ensures i + n <= |s|
    ensures forall k :: i <= k < i + n ==> IsAsciiDigit(s[k])
    ensures i + n < |s| ==> !IsAsciiDigit(s[i + n])
    decreases |s| - i
  {
    if i == |s| || !IsAsciiDigit(s[i]) then 0 else 1 + DigitRun(s, i + 1)
  }

  /** `/^\+?\d{7,15}$/.test(s)`: an optional '+', then 7 to 15 digits reaching the end of the input. */
  predicate MatchesPhonePattern(s: string) {
    var start := if |s| > 0 && s[0] == '+' then 1 else 0;
    var n := DigitRun(s, start);
    7 <= n <= 15 && start + n == |s|
  }

  predicate AllDigits(t: string) {
    forall k :: 0 <= k < |t| ==> IsAsciiDigit(t[k])
  }

  /** A phone number in plain terms: 7 to 15 digits, possibly after one leading '+'. */
  predicate IsPhoneNumber(s: string) {
    || (AllDigits(s) && 7 <= |s| <= 15)
    || (|s| > 0 && s[0] == '+' && AllDigits(s[1..]) && 7 <= |s| - 1 <= 15)
  }

  /** Over a stretch of digits reaching the end, `\d` repeats to the end. */
  lemma {:induction false} DigitRunToEnd(s: string, i: nat)
    requires i <= |s| && forall k :: i <= k < |s| ==> IsAsciiDigit(s[k])
    ensures DigitRun(s, i) == |s| - i
    decreases |s| - i
  {
    if i < |s| {
      DigitRunToEnd(s, i + 1);
    }
  }

  /** The pattern accepts exactly the phone numbers. */
  lemma PhonePatternIff(s: string)
    ensures MatchesPhonePattern(s) <==> IsPhoneNumber(s)
  {
    var start := if |s| > 0 && s[0] == '+' then 1 else 0;
    var n := DigitRun(s, start);
    if MatchesPhonePattern(s) {
      if start == 1 {
        assert forall k :: 0 <= k < |s[1..]| ==> s[1..][k] == s[k + 1];
      }
    }
    if AllDigits(s) && 7 <= |s| <= 15 {
      assert IsAsciiDigit(s[0]);
      DigitRunToEnd(s, 0);
    } else if |s| > 0 && s[0] == '+' && AllDigits(s[1..]) && 7 <= |s| - 1 <= 15 {
      assert forall k :: 1 <= k < |s| ==> s[k] == s[1..][k - 1];
      DigitRunToEnd(s, 1);
    }
  }

  /** A letter anywhere makes the phone invalid. */
  lemma PhoneWithLetterRejected(s: string, i: nat)
    requires i < |s| && IsAsciiLower(s[i])
    ensures !MatchesPhonePattern(s)
  {
    PhonePatternIff(s);
    if |s| > 0 && s[0] == '+' {
      assert i >= 1;
      assert s[1..][i - 1] == s[i];
    }
  }

  // ---------------------------------------------------------------- the form

  /** The form's value: every control, in the order the group declares them. */
  datatype RegisterFormValue = RegisterFormValue(
    nombre: string, correo: string, telefono: string, departamento: string, ciudad: string,
    contrasena: string, confirmarContrasena: string, terms: bool)

  /** The group-level error `passwordsMatchValidator` reports. */
  datatype GroupError = PasswordsMismatch

  /** `passwordsMatchValidator`: no error exactly when the two password fields are equal. */
  function PasswordsMatchValidator(f: RegisterFormValue): (r: Option<GroupError>)
    ensures r.None? <==> f.contrasena == f.confirmarContrasena
    ensures r.Some? ==> r.value == PasswordsMismatch
  {
    if f.contrasena == f.confirmarContrasena then None else Some(PasswordsMismatch)
  }

  /** Every control passes its validators (`required` refuses only the empty string, `requiredTrue` anything but true). */
  predicate ControlsValid(f: RegisterFormValue, isEmail: string -> bool) {
    && f.nombre != ""
    && f.correo != "" && isEmail(f.correo)
    && f.telefono != "" && MatchesPhonePattern(f.telefono)
    && f.departamento != ""
    && f.ciudad != ""
    && f.contrasena != "" && MatchesStrongPasswordRegex(f.contrasena)
    && f.confirmarContrasena != ""
    && f.terms
  }

  /** The form is valid when every control is and the group validator reports nothing. */
  predicate FormValid(f: RegisterFormValue, isEmail: string -> bool) {
    ControlsValid(f, isEmail) && PasswordsMatchValidator(f).None?
  }

  /**
   * A valid form holds a password the backend's rule accepts, a phone number, two equal
   * passwords and accepted terms; conversely such values in non-empty fields make a valid form.
   */
  lemma ValidFormMeetsRules(f: RegisterFormValue, isEmail: string -> bool)
    ensures FormValid(f, isEmail) <==>
      && f.nombre != "" && f.correo != "" && isEmail(f.correo) && f.departamento != "" && f.ciudad != ""
      && IsPhoneNumber(f.telefono) && StrongPassword(f.contrasena)
      && f.confirmarContrasena == f.contrasena && f.terms
  {
    PhonePatternIff(f.telefono);
    RegexIsStrongPassword(f.contrasena);
    if StrongPassword(f.contrasena) {
      assert MatchesStrongPasswordRegex(f.contrasena);
      assert |f.contrasena| >= 8;
    }
    if IsPhoneNumber(f.telefono) {
      assert |f.telefono| >= 7;
    }
  }

  // ---------------------------------------------------------------- the payload

  /** A JSON object of string values, as its (key, value) pairs in property order. */
  type JsonBody = seq<(string, string)>

  /** `body[key]`: the first property of that name, if any. */
  function Field(body: JsonBody, key: string): (r: Option<string>)
    ensures r.Some? <==> exists i :: 0 <= i < |body| && body[i].0 == key
  {
    if body == [] then None
    else if body[0].0 == key then Some(body[0].1)
    else
      var r := Field(body[1..], key);
      assert forall i :: 1 <= i < |body| ==> body[i] == body[1..][i - 1];
      r
  }

  /** What the registration handler destructures from the body: `nombre`, `correo` and `contraseña`. */
  function BackendBody(body: JsonBody): (b: Usuarios.RegistroBody)
    ensures b.nombre == Field(body, "nombre") && b.correo == Field(body, "correo")
    ensures b.contrasena == Field(body, "contraseña")
  {
    Usuarios.RegistroBody(Field(body, "nombre"), Field(body, "correo"), Field(body, "contraseña"))
  }

  /** `userData` as written: the form value without `confirmarContrasena` and `terms`, the password under "contrasena". */
  function UserDataAsWritten(f: RegisterFormValue): (body: JsonBody)
    ensures |body| == 6
    ensures forall i :: 0 <= i < |body| ==> body[i].0 != "confirmarContrasena" && body[i].0 != "terms"
  {
    [("nombre", f.nombre), ("correo", f.correo), ("telefono", f.telefono),
     ("departamento", f.departamento), ("ciudad", f.ciudad), ("contrasena", f.contrasena)]
  }

  /** `userData` with the password under the key the backend reads. */
  function UserData(f: RegisterFormValue): (body: JsonBody)
    ensures |body| == 6
    ensures forall i :: 0 <= i < |body| ==> body[i].0 != "confirmarContrasena" && body[i].0 != "terms"
  {
    [("nombre", f.nombre), ("correo", f.correo), ("telefono", f.telefono),
     ("departamento", f.departamento), ("ciudad", f.ciudad), ("contraseña", f.contrasena)]
  }

  /** `onSubmit`: an invalid form sends nothing; a valid one posts its user data. */
  function Submit(f: RegisterFormValue, isEmail: string -> bool): (sent: Option<JsonBody>)
    ensures sent.Some? <==> FormValid(f, isEmail)
    ensures sent.Some? ==> BackendBody(sent.value) == Usuarios.RegistroBody(Some(f.nombre), Some(f.correo), Some(f.contrasena))
  {
    if !FormValid(f, isEmail) then None
    else
      var body := UserData(f);
      UserDataRead(f);
      Some(body)
  }

  /** The backend finds the three fields it needs in the posted body. */
  lemma UserDataRead(f: RegisterFormValue)
    ensures BackendBody(UserData(f)) == Usuarios.RegistroBody(Some(f.nombre), Some(f.correo), Some(f.contrasena))
  {
    var body := UserData(f);
    var key := "contraseña";
    assert "nombre" != "correo" by { assert "nombre"[0] != "correo"[0]; }
    assert Field(body, "correo") == Field(body[1..], "correo");
    assert |"nombre"| != |key| && |"correo"| != |key| && |"telefono"| != |key|;
    assert |"departamento"| != |key| && |"ciudad"| != |key|;
    assert Field(body, key) == Field(body[1..], key);
    assert Field(body[1..], key) == Field(body[2..], key);
    assert Field(body[2..], key) == Field(body[3..], key);
    assert Field(body[3..], key) == Field(body[4..], key);
    assert Field(body[4..], key) == Field(body[5..], key);
    assert body[5..] == [(key, f.contrasena)];
  }

  /** As written, the body has no "contraseña", so every valid form is refused for missing fields. */
  lemma RegistrationAsWrittenRefused(rows: seq<Usuarios.Usuario>, f: RegisterFormValue, isEmail: string -> bool)
    requires FormValid(f, isEmail)
    ensures Usuarios.RegisterCheck(rows, BackendBody(UserDataAsWritten(f))) == Some(Usuarios.Error(400, Usuarios.MsgMissingFields))
  {
    var body := UserDataAsWritten(f);
    assert "contrasena"[8] != "contraseña"[8];
    assert forall i :: 0 <= i < |body| ==> body[i].0 != "contraseña";
  }

  /** With the key the backend reads, a valid form gets past every check except a registered e-mail. */
  lemma RegistrationAccepted(rows: seq<Usuarios.Usuario>, f: RegisterFormValue, isEmail: string -> bool)
    requires FormValid(f, isEmail)
    ensures var sent := Submit(f, isEmail);
      sent.Some? && (Usuarios.RegisterCheck(rows, BackendBody(sent.value)).None? <==> Usuarios.FindByEmail(rows, f.correo).None?)
  {
    UserDataRead(f);
  }

  // ---------------------------------------------------------------- the error message

  const MsgNoSePudoRegistrar: string := "No se pudo registrar"

  /** JavaScript truthiness of a value. */
  predicate JsTruthy(v: JsValue) {
    match v
    case JUndefined => false
    case JNull => false
    case JBool(b) => b
    case JNum(n) => n != 0
    case JStr(s) => s != ""
    case _ => true
  }

  /** `err.error?.message || 'No se pudo registrar'`, as written. */
  function RegisterErrorMessageAsWritten(err: JsValue): (m: JsValue)
    ensures JsTruthy(m)
    ensures m == JStr(MsgNoSePudoRegistrar) || m == Get(Get(err, "error"), "message")
  {
    var shown := Get(Get(err, "error"), "message");
    if JsTruthy(shown) then shown else JStr(MsgNoSePudoRegistrar)
  }

  /**
   * Every failed registration goes through `handleError`, which throws `{ message }`:
   * that object has no `error` property, so the form always shows the fallback.
   */
  lemma RegisterErrorAlwaysFallback(e: AppError)
    ensures RegisterErrorMessageAsWritten(HandleError(e)) == JStr(MsgNoSePudoRegistrar)
  {
    var emitted := HandleError(e);
    assert "message" != "error" by { assert |"message"| != |"error"|; }
    assert emitted.props[1..] == [];
    assert Lookup(emitted.props, "error") == Lookup([], "error");
  }

  /** `err.message || 'No se pudo registrar'`: the message `handleError` actually throws. */
  function RegisterErrorMessage(err: JsValue): (m: JsValue)
    ensures JsTruthy(m)
    ensures m == JStr(MsgNoSePudoRegistrar) || m == Get(err, "message")
  {
    var shown := Get(err, "message");
    if JsTruthy(shown) then shown else JStr(MsgNoSePudoRegistrar)
  }

  /** Reading `message` shows the user the message `getErrorMessage` chose, whenever it is a usable string. */
  lemma RegisterErrorShowsHandledMessage(e: AppError)
    requires !(e.HttpError? && FirstErrorApplies(e.body))
    ensures RegisterErrorMessage(HandleError(e)) == GetErrorMessage(e)
  {
  }
}
