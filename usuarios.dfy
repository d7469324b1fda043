/**
 * The account handlers of Backend/src/controllers/usuario.ts over the
 * `usuarios` table: registration, e-mail code verification, password login,
 * Google find-or-create, stateless refresh, password reset, and writing and
 * checking the TOTP secret.
 *
 * Each handler is a method of `UserTable` that changes the rows step by step
 * as the controller does; its postcondition ties the new rows and the reply to
 * a function of the old rows (`Registrar`, `Verificar`, ...). The properties
 * the controller promises are lemmas about those functions.
 *
 * Collaborators are parameters: the clock (`nowMs`), the random verification
 * code, the bcrypt hash computed for the call and bcrypt's comparison, JWT
 * checking, Google's token check, speakeasy's TOTP check and whether the
 * e-mail transport succeeded.
 */
module Usuarios {
  import opened Wrappers
  import opened Strings
  import opened Decimal
  import opened Crypto
  import opened PasswordPolicy

  datatype Rol = Admin | Cliente | Trabajador

  function RolName(r: Rol): string {
    match r
    case Admin => "Admin"
    case Cliente => "Cliente"
    case Trabajador => "Trabajador"
  }

  /** A row of `usuarios`. `contrasena` holds the bcrypt hash, never the password. */
  datatype Usuario = Usuario(
    id: nat,
    nombre: string,
    correo: string,
    contrasena: Option<string>,
    googleId: Option<string>,
    fotoPerfil: Option<string>,
    periodoGracia: bool,
    periodoPrueba: bool,
    fechaCobro: Option<int>,
    telefono: Option<string>,
    rol: Rol,
    isVerified: bool,
    verificationCode: Option<string>,
    verificationExpiresAt: Option<int>,
    periodoGraciaExpira: Option<int>,
    twofaSecret: Option<string>,
    eliminado: bool)

  /** The user summary the password login returns. */
  datatype Perfil = Perfil(id: nat, nombre: string, correo: string, rol: Rol)

  /** The HTTP replies of the handlers: an error status with its message, or a success body. */
  datatype Reply =
    | Error(status: nat, message: string)
    | Registered(userId: nat)
    | EmailVerified
    | LoggedIn(usuario: Perfil, accessToken: Jwt, refreshToken: Jwt)
    | GoogleLoggedIn(row: Usuario, accessToken: Jwt, refreshToken: Jwt)
    | AccessToken(token: Jwt)
    | PasswordChanged
    | TwoFactorQr(qrCodeUrl: string)
  {
    function Status(): nat {
      match this
      case Error(s, _) => s
      case Registered(_) => 201
      case _ => 200
    }
  }

  const MsgMissingFields: string := "Faltan datos obligatorios"
  const MsgWeakPassword: string := "La contraseña debe tener mínimo 8 caracteres, mayúscula, minúscula, número y caracter especial"
  const MsgEmailTaken: string := "El correo ya está registrado"
  const MsgServer: string := "Error en el servidor"
  const MsgUserNotFound: string := "Usuario no encontrado"
  const MsgBadCode: string := "Código inválido o vencido"
  const MsgNotVerified: string := "Debes verificar tu correo"
  const MsgGoogleAccount: string := "Este usuario se registró con Google"
  const MsgWrongPassword: string := "Contraseña incorrecta"
  const MsgGoogleNoEmail: string := "Token inválido, sin correo"
  const MsgGoogleError: string := "Error autenticando con Google"
  const MsgNoRefresh: string := "No hay refresh token"
  const MsgBadRefresh: string := "Refresh token inválido o expirado"
  const MsgNoNewPassword: string := "Debes proporcionar la nueva contraseña"
  const MsgNoToken: string := "Token no proporcionado"
  const MsgBadToken: string := "Token inválido"
  const MsgBadOrExpiredToken: string := "Token inválido o expirado"
  const MsgNo2FA: string := "Usuario sin 2FA habilitado"
  const MsgBad2FA: string := "Código 2FA inválido"

  const CodeLifetimeMs: int := 15 * MinuteMs
  const TrialDays: int := 30

  /** JavaScript truthiness of an optional string: present and non-empty. */
  predicate Truthy(s: Option<string>) {
    s.Some? && s.value != ""
  }

  /** `String(x)` of an optional stored string: `null` renders as "null". */
  function JsString(s: Option<string>): string {
    if s.Some? then s.value else "null"
  }

  /** The index of the first row with this e-mail (`findOne({ where: { correo } })`). */
  function FindByEmail(rows: seq<Usuario>, correo: string): (r: Option<nat>)
    ensures r.Some? ==> r.value < |rows| && rows[r.value].correo == correo
    ensures r.Some? ==> forall j :: 0 <= j < r.value ==> rows[j].correo != correo
    ensures r.None? <==> forall j :: 0 <= j < |rows| ==> rows[j].correo != correo
  {
    if rows == [] then None
    else if rows[0].correo == correo then Some(0)
    else
      var r := FindByEmail(rows[1..], correo);
      if r.Some? then Some(r.value + 1) else None
  }

  /** The index of the row with this primary key (`findByPk(id)`); a missing id finds nothing. */
  function FindById(rows: seq<Usuario>, id: Option<int>): (r: Option<nat>)
    ensures r.Some? ==> id.Some? && r.value < |rows| && rows[r.value].id == id.value
    ensures r.None? ==> id.None? || forall j :: 0 <= j < |rows| ==> rows[j].id != id.value
  {
    if id.None? || rows == [] then None
    else if rows[0].id == id.value then Some(0)
    else
      var r := FindById(rows[1..], id);
      if r.Some? then Some(r.value + 1) else None
  }

  /** E-mails are unique (the column's unique constraint). */
  ghost predicate UniqueEmails(rows: seq<Usuario>) {
    forall i, j :: 0 <= i < j < |rows| ==> rows[i].correo != rows[j].correo
  }

  /** Primary keys are unique and below the next auto-increment value. */
  ghost predicate IdsBelow(rows: seq<Usuario>, nextId: nat) {
    && nextId >= 1
    && (forall i :: 0 <= i < |rows| ==> 1 <= rows[i].id < nextId)
    && (forall i, j :: 0 <= i < j < |rows| ==> rows[i].id != rows[j].id)
  }

  /** The verification code and its expiry are set or cleared together. */
  ghost predicate CodeWithExpiry(u: Usuario) {
    u.verificationCode.Some? <==> u.verificationExpiresAt.Some?
  }

  ghost predicate TableInvariant(rows: seq<Usuario>, nextId: nat) {
    && IdsBelow(rows, nextId)
    && UniqueEmails(rows)
    && (forall i :: 0 <= i < |rows| ==> CodeWithExpiry(rows[i]))
  }

  /** The result of a handler that may write: the rows afterwards and the reply. */
  datatype Outcome = Outcome(rows: seq<Usuario>, reply: Reply)

  // ---------------------------------------------------------------- registrarUsuario

  datatype RegistroBody = RegistroBody(nombre: Option<string>, correo: Option<string>, contrasena: Option<string>)

  /** The first check registration fails, in the controller's order; `None` when all pass. */
  function RegisterCheck(rows: seq<Usuario>, body: RegistroBody): (err: Option<Reply>)
    ensures err.Some? ==> err.value.Error? && err.value.status == 400
  {
    if !Truthy(body.nombre) || !Truthy(body.correo) || !Truthy(body.contrasena) then Some(Error(400, MsgMissingFields))
    else if !MatchesStrongPasswordRegex(body.contrasena.value) then Some(Error(400, MsgWeakPassword))
    else if FindByEmail(rows, body.correo.value).Some? then Some(Error(400, MsgEmailTaken))
    else None
  }

  /** The row registration creates. */
  function NewRegistrant(id: nat, nombre: string, correo: string, hash: string, code: nat, nowMs: int): Usuario {
    Usuario(id, nombre, correo, Some(hash), None, None, false, true, Some(nowMs + TrialDays * DayMs), None,
            Cliente, false, Some(NatToText(code)), Some(nowMs + CodeLifetimeMs), None, None, false)
  }

  /**
   * `registrarUsuario` as a function of the table. `code` is the value of
   * `crypto.randomInt(100000, 999999)`, `bcryptHash` the hash computed for
   * this call; a failed verification e-mail answers 500 after the row exists.
   */
  function Registrar(rows: seq<Usuario>, nextId: nat, body: RegistroBody, nowMs: int, code: nat,
                     bcryptHash: string -> string, mailSent: bool): Outcome
  {
    var err := RegisterCheck(rows, body);
    if err.Some? then Outcome(rows, err.value)
    else
      var u := NewRegistrant(nextId, body.nombre.value, body.correo.value, bcryptHash(body.contrasena.value), code, nowMs);
      Outcome(rows + [u], if mailSent then Registered(nextId) else Error(500, MsgServer))
  }

  /** A missing or empty name, e-mail or password is refused with 400 whatever the table holds. */
  lemma RegisterMissingFieldFirst(rows: seq<Usuario>, nextId: nat, body: RegistroBody, nowMs: int, code: nat,
                                  h: string -> string, mailSent: bool)
    requires !Truthy(body.nombre) || !Truthy(body.correo) || !Truthy(body.contrasena)
    ensures Registrar(rows, nextId, body, nowMs, code, h, mailSent) == Outcome(rows, Error(400, MsgMissingFields))
  {
  }

  /** Registration writes a row exactly when the fields are present, the password is strong and the e-mail is new. */
  lemma RegisterCreatesIff(rows: seq<Usuario>, nextId: nat, body: RegistroBody, nowMs: int, code: nat,
                           h: string -> string, mailSent: bool)
    ensures var o := Registrar(rows, nextId, body, nowMs, code, h, mailSent);
      (o.rows != rows) <==>
        (Truthy(body.nombre) && Truthy(body.correo) && Truthy(body.contrasena)
         && StrongPassword(body.contrasena.value)
         && forall j :: 0 <= j < |rows| ==> rows[j].correo != body.correo.value)
  {
    if Truthy(body.contrasena) {
      RegexIsStrongPassword(body.contrasena.value);
    }
    var o := Registrar(rows, nextId, body, nowMs, code, h, mailSent);
    if RegisterCheck(rows, body).None? {
      assert |o.rows| == |rows| + 1;
    }
  }

  /**
   * A new registrant is unverified, a "Cliente" on trial and not in grace, holds a
   * six-digit code expiring exactly 15 minutes from now, and is charged 30 days ahead.
   */
  lemma NewRegistrantState(id: nat, nombre: string, correo: string, hash: string, code: nat, nowMs: int)
    requires 100000 <= code < 999999
    ensures var u := NewRegistrant(id, nombre, correo, hash, code, nowMs);
      && !u.isVerified && u.rol == Cliente && u.periodoPrueba && !u.periodoGracia && !u.eliminado
      && u.verificationCode.Some? && |u.verificationCode.value| == 6 && AllDigits(u.verificationCode.value)
      && ParseNat(u.verificationCode.value) == code
      && u.verificationExpiresAt == Some(nowMs + 15 * 60 * 1000)
      && u.fechaCobro == Some(nowMs + 30 * 24 * 60 * 60 * 1000)
      && u.contrasena == Some(hash)
  {
    TextLengthSix(code);
    ParseNatToText(code);
  }

  /** Registration keeps the table invariant. */
  lemma RegistrarKeepsInvariant(rows: seq<Usuario>, nextId: nat, body: RegistroBody, nowMs: int, code: nat,
                                h: string -> string, mailSent: bool)
    requires TableInvariant(rows, nextId)
    ensures var o := Registrar(rows, nextId, body, nowMs, code, h, mailSent);
      TableInvariant(o.rows, if o.rows == rows then nextId else nextId + 1)
  {
    if RegisterCheck(rows, body).None? {
      var u := NewRegistrant(nextId, body.nombre.value, body.correo.value, h(body.contrasena.value), code, nowMs);
      AppendKeepsInvariant(rows, nextId, u);
      assert Registrar(rows, nextId, body, nowMs, code, h, mailSent).rows == rows + [u] != rows;
    }
  }

  /** A row with the next id, a new e-mail and its code and expiry in step keeps the table invariant. */
  lemma {:induction false} AppendKeepsInvariant(rows: seq<Usuario>, nextId: nat, u: Usuario)
    requires TableInvariant(rows, nextId) && u.id == nextId && CodeWithExpiry(u)
    requires forall j :: 0 <= j < |rows| ==> rows[j].correo != u.correo
    ensures TableInvariant(rows + [u], nextId + 1)
  {
    var r := rows + [u];
    assert forall k :: 0 <= k < |rows| ==> r[k] == rows[k];
    assert r[|rows|] == u;
  }

  // ---------------------------------------------------------------- verificarCodigo

  /**
   * The success condition of `verificarCodigo`: the trimmed stored code (as
   * `String(...)`) equals the trimmed submitted code, the expiry is set, and
   * it is not before now. `codigo` is `String(req.body.codigo)`.
   */
  predicate CodeAccepted(u: Usuario, codigo: string, nowMs: int) {
    && Trim(JsString(u.verificationCode)) == Trim(codigo)
    && u.verificationExpiresAt.Some?
    && !(u.verificationExpiresAt.value < nowMs)
  }

  /** The row after a successful verification. */
  function MarkVerified(u: Usuario): Usuario {
    u.(isVerified := true, verificationCode := None, verificationExpiresAt := None)
  }

  /** `verificarCodigo`; a missing e-mail makes the lookup throw (500). */
  function Verificar(rows: seq<Usuario>, correo: Option<string>, codigo: string, nowMs: int): Outcome {
    if correo.None? then Outcome(rows, Error(500, MsgServer))
    else
      var i := FindByEmail(rows, correo.value);
      if i.None? then Outcome(rows, Error(400, MsgUserNotFound))
      else if !CodeAccepted(rows[i.value], codigo, nowMs) then Outcome(rows, Error(400, MsgBadCode))
      else Outcome(rows[i.value := MarkVerified(rows[i.value])], EmailVerified)
  }

  /** Verification succeeds iff the user exists and the code is accepted; success changes only that row. */
  lemma VerificarSucceedsIff(rows: seq<Usuario>, correo: string, codigo: string, nowMs: int)
    ensures var o := Verificar(rows, Some(correo), codigo, nowMs);
      && (o.reply == EmailVerified <==>
           exists i :: 0 <= i < |rows| && rows[i].correo == correo && FindByEmail(rows, correo) == Some(i)
                       && CodeAccepted(rows[i], codigo, nowMs))
      && (o.reply != EmailVerified ==> o.rows == rows && o.reply.Error? && o.reply.status == 400)
  {
    var i := FindByEmail(rows, correo);
    if i.Some? && CodeAccepted(rows[i.value], codigo, nowMs) {
      assert 0 <= i.value < |rows| && rows[i.value].correo == correo && FindByEmail(rows, correo) == Some(i.value);
    }
  }

  /** A code past its expiry is refused even when it matches. */
  lemma ExpiredCodeRefused(u: Usuario, codigo: string, nowMs: int)
    requires u.verificationExpiresAt.Some? && u.verificationExpiresAt.value < nowMs
    ensures !CodeAccepted(u, codigo, nowMs)
  {
  }

  /** Once verified, the row accepts no code at any time: the code and expiry were cleared together. */
  lemma VerificationIsSingleUse(rows: seq<Usuario>, correo: string, c1: string, t1: int, c2: string, t2: int)
    requires UniqueEmails(rows)
    requires Verificar(rows, Some(correo), c1, t1).reply == EmailVerified
    ensures var o := Verificar(rows, Some(correo), c1, t1);
      Verificar(o.rows, Some(correo), c2, t2) == Outcome(o.rows, Error(400, MsgBadCode))
  {
    var i := FindByEmail(rows, correo).value;
    var rows' := rows[i := MarkVerified(rows[i])];
    assert rows'[i].correo == correo;
    assert forall j :: 0 <= j < |rows| && j != i ==> rows'[j].correo == rows[j].correo != correo;
    assert FindByEmail(rows', correo) == Some(i);
  }

  /** Padding the submitted code with whitespace does not change the outcome. */
  lemma CodePaddingIgnored(u: Usuario, codigo: string, pad1: string, pad2: string, nowMs: int)
    requires AllWhitespace(pad1) && AllWhitespace(pad2)
    ensures CodeAccepted(u, pad1 + codigo + pad2, nowMs) <==> CodeAccepted(u, codigo, nowMs)
  {
    TrimIgnoresPadding(codigo, pad1, pad2);
  }

  lemma VerificarKeepsInvariant(rows: seq<Usuario>, nextId: nat, correo: Option<string>, codigo: string, nowMs: int)
    requires TableInvariant(rows, nextId)
    ensures TableInvariant(Verificar(rows, correo, codigo, nowMs).rows, nextId)
  {
    if correo.Some? {
      var i := FindByEmail(rows, correo.value);
      if i.Some? && CodeAccepted(rows[i.value], codigo, nowMs) {
        UpdateKeepsInvariant(rows, nextId, i.value, MarkVerified(rows[i.value]));
      }
    }
  }

  /** Rewriting one row without touching its id or e-mail, its code and expiry in step, keeps the table invariant. */
  lemma {:induction false} UpdateKeepsInvariant(rows: seq<Usuario>, nextId: nat, i: nat, u: Usuario)
    requires TableInvariant(rows, nextId) && i < |rows|
    requires u.id == rows[i].id && u.correo == rows[i].correo && CodeWithExpiry(u)
    ensures TableInvariant(rows[i := u], nextId)
  {
    var r := rows[i := u];
    assert forall k :: 0 <= k < |rows| ==> r[k].id == rows[k].id && r[k].correo == rows[k].correo;
    assert forall k :: 0 <= k < |rows| && k != i ==> r[k] == rows[k];
  }

  // ---------------------------------------------------------------- loginUsuario

  function AccessClaims(u: Usuario): Claims {
    Claims(Some(u.id), Some(u.correo), Some(RolName(u.rol)), None)
  }

  /** `jwt.sign({ id, correo, rol }, JWT_SECRET || "secret", { expiresIn: "15m" })`. */
  function AccessTokenFor(u: Usuario, env: Env, nowMs: int): Jwt {
    Sign(AccessClaims(u), AccessKey(env), HS256, nowMs, FifteenMinutesSec)
  }

  /** `jwt.sign({ id }, JWT_REFRESH_SECRET || "refresh", { expiresIn: "7d" })`. */
  function RefreshTokenFor(u: Usuario, env: Env, nowMs: int): Jwt {
    Sign(Claims(Some(u.id), None, None, None), RefreshKey(env), HS256, nowMs, SevenDaysSec)
  }

  /**
   * `loginUsuario`: unknown e-mail, unverified account, account without a
   * password hash, wrong password, each 400, in that order; otherwise both
   * tokens. It reads and writes nothing else. `bcryptCompare` is bcrypt's check;
   * it throws on a missing password, which the handler answers with 500.
   */
  function Login(rows: seq<Usuario>, correo: Option<string>, contrasena: Option<string>,
                 bcryptCompare: (string, string) -> bool, env: Env, nowMs: int): Reply
  {
    if correo.None? then Error(500, MsgServer)
    else
      var i := FindByEmail(rows, correo.value);
      if i.None? then Error(400, MsgUserNotFound)
      else
        var u := rows[i.value];
        if !u.isVerified then Error(400, MsgNotVerified)
        else if !Truthy(u.contrasena) then Error(400, MsgGoogleAccount)
        else if contrasena.None? then Error(500, MsgServer)
        else if !bcryptCompare(contrasena.value, u.contrasena.value) then Error(400, MsgWrongPassword)
        else LoggedIn(Perfil(u.id, u.nombre, u.correo, u.rol), AccessTokenFor(u, env, nowMs), RefreshTokenFor(u, env, nowMs))
  }

  /** Tokens are issued iff all four checks pass; every refusal is a 400, never a 401. */
  lemma LoginIssuesTokensIff(rows: seq<Usuario>, correo: string, pw: string,
                             cmp: (string, string) -> bool, env: Env, nowMs: int)
    ensures var r := Login(rows, Some(correo), Some(pw), cmp, env, nowMs);
      && (r.LoggedIn? <==>
           (FindByEmail(rows, correo).Some?
            && var u := rows[FindByEmail(rows, correo).value];
               u.isVerified && Truthy(u.contrasena) && cmp(pw, u.contrasena.value)))
      && (!r.LoggedIn? ==> r.Error? && r.status == 400)
      && (r.LoggedIn? ==> r.accessToken.claims.id == Some(r.usuario.id)
                          && r.accessToken.expiresAt - r.accessToken.issuedAt == 900
                          && r.refreshToken.expiresAt - r.refreshToken.issuedAt == 7 * 24 * 3600)
  {
  }

  /** An unverified account is refused whatever password is given. */
  lemma UnverifiedLoginRefused(rows: seq<Usuario>, correo: string, pw: Option<string>,
                               cmp: (string, string) -> bool, env: Env, nowMs: int)
    requires FindByEmail(rows, correo).Some? && !rows[FindByEmail(rows, correo).value].isVerified
    ensures Login(rows, Some(correo), pw, cmp, env, nowMs) == Error(400, MsgNotVerified)
  {
  }

  /** Password login never consults the TOTP secret: a stored secret does not stop tokens being issued. */
  lemma {:induction false} LoginIgnoresTwoFactor(rows: seq<Usuario>, k: nat, secret: Option<string>, correo: string, pw: Option<string>,
                                                 cmp: (string, string) -> bool, env: Env, nowMs: int)
    requires k < |rows|
    ensures Login(rows[k := rows[k].(twofaSecret := secret)], Some(correo), pw, cmp, env, nowMs)
            == Login(rows, Some(correo), pw, cmp, env, nowMs)
  {
    var rows' := rows[k := rows[k].(twofaSecret := secret)];
    SameEmailsSameLookup(rows, rows', correo);
  }

  /** Two tables whose rows carry the same e-mails resolve an e-mail to the same index. */
  lemma {:induction false} SameEmailsSameLookup(a: seq<Usuario>, b: seq<Usuario>, correo: string)
    requires |a| == |b| && forall j :: 0 <= j < |a| ==> a[j].correo == b[j].correo
    ensures FindByEmail(a, correo) == FindByEmail(b, correo)
  {
    if a != [] && a[0].correo != correo {
      SameEmailsSameLookup(a[1..], b[1..], correo);
    }
  }

  // ---------------------------------------------------------------- loginConGoogle

  datatype GooglePayload = GooglePayload(email: Option<string>, name: Option<string>, sub: Option<string>, picture: Option<string>)

  /** What `client.verifyIdToken` gave: it threw, or a ticket whose payload may be missing. */
  datatype GoogleTicket = TicketRejected | Ticket(payload: Option<GooglePayload>)

  /** The row a first Google login creates: verified, on trial, without a password. */
  function NewGoogleUser(id: nat, p: GooglePayload, nowMs: int): Usuario
    requires Truthy(p.email)
  {
    Usuario(id, if Truthy(p.name) then p.name.value else "Usuario", p.email.value, None, p.sub,
            if Truthy(p.picture) then p.picture else None, false, true, Some(nowMs + TrialDays * DayMs), None,
            Cliente, true, None, None, None, None, false)
  }

  /** `loginConGoogle`: find-or-create by the verified e-mail, then both tokens. */
  function LoginConGoogle(rows: seq<Usuario>, nextId: nat, ticket: GoogleTicket, env: Env, nowMs: int): Outcome {
    if ticket.TicketRejected? then Outcome(rows, Error(500, MsgGoogleError))
    else if ticket.payload.None? || !Truthy(ticket.payload.value.email) then Outcome(rows, Error(400, MsgGoogleNoEmail))
    else
      var p := ticket.payload.value;
      var i := FindByEmail(rows, p.email.value);
      if i.Some? then
        var u := rows[i.value];
        Outcome(rows, GoogleLoggedIn(u, AccessTokenFor(u, env, nowMs), RefreshTokenFor(u, env, nowMs)))
      else
        var u := NewGoogleUser(nextId, p, nowMs);
        Outcome(rows + [u], GoogleLoggedIn(u, AccessTokenFor(u, env, nowMs), RefreshTokenFor(u, env, nowMs)))
  }

  /**
   * Google login: an unknown e-mail creates a verified, passwordless user whose
   * `google_id` is the token's subject; a known e-mail logs that row in unchanged,
   * verified or not.
   */
  lemma GoogleFindOrCreate(rows: seq<Usuario>, nextId: nat, p: GooglePayload, env: Env, nowMs: int)
    requires Truthy(p.email)
    ensures var o := LoginConGoogle(rows, nextId, Ticket(Some(p)), env, nowMs);
      && o.reply.GoogleLoggedIn?
      && (FindByEmail(rows, p.email.value).Some? ==>
            o.rows == rows && o.reply.row == rows[FindByEmail(rows, p.email.value).value])
      && (FindByEmail(rows, p.email.value).None? ==>
            && o.rows == rows + [o.reply.row]
            && o.reply.row.isVerified && o.reply.row.contrasena.None?
            && o.reply.row.googleId == p.sub && o.reply.row.correo == p.email.value && o.reply.row.id == nextId)
  {
  }

  lemma LoginConGoogleKeepsInvariant(rows: seq<Usuario>, nextId: nat, ticket: GoogleTicket, env: Env, nowMs: int)
    requires TableInvariant(rows, nextId)
    ensures var o := LoginConGoogle(rows, nextId, ticket, env, nowMs);
      TableInvariant(o.rows, if o.rows == rows then nextId else nextId + 1)
  {
    if ticket.Ticket? && ticket.payload.Some? && Truthy(ticket.payload.value.email)
       && FindByEmail(rows, ticket.payload.value.email.value).None? {
      var u := NewGoogleUser(nextId, ticket.payload.value, nowMs);
      AppendKeepsInvariant(rows, nextId, u);
      assert LoginConGoogle(rows, nextId, ticket, env, nowMs).rows == rows + [u] != rows;
    }
  }

  // ---------------------------------------------------------------- refreshAccessToken

  /**
   * `refreshAccessToken`: a stateless check of the refresh JWT (`jwtVerify`
   * returns the claims, or `None` when it throws), then a new access token for
   * the user it names. No row is read or written besides the user lookup.
   */
  function Refresh(rows: seq<Usuario>, refreshToken: Option<string>, jwtVerify: (string, string) -> Option<Claims>,
                   env: Env, nowMs: int): Reply
  {
    if !Truthy(refreshToken) then Error(401, MsgNoRefresh)
    else
      var claims := jwtVerify(refreshToken.value, RefreshKey(env));
      if claims.None? then Error(403, MsgBadRefresh)
      else
        var i := FindById(rows, claims.value.id);
        if i.None? then Error(401, MsgUserNotFound)
        else AccessToken(AccessTokenFor(rows[i.value], env, nowMs))
  }

  /** A refresh succeeds iff the token verifies under the refresh key and names an existing user. */
  lemma RefreshSucceedsIff(rows: seq<Usuario>, t: string, v: (string, string) -> Option<Claims>, env: Env, nowMs: int)
    requires t != ""
    ensures Refresh(rows, Some(t), v, env, nowMs).AccessToken? <==>
      (v(t, RefreshKey(env)).Some? && FindById(rows, v(t, RefreshKey(env)).value.id).Some?)
    ensures v(t, RefreshKey(env)).None? ==> Refresh(rows, Some(t), v, env, nowMs) == Error(403, MsgBadRefresh)
  {
  }

  // ---------------------------------------------------------------- resetearContraseña

  /**
   * `resetearContraseña`: the reset token is checked with the access-token key;
   * the new password is hashed and stored without the strength rule; a failed
   * confirmation e-mail is reported as 400 after the hash was saved.
   */
  function ResetPassword(rows: seq<Usuario>, token: Option<string>, nueva: Option<string>,
                         jwtVerify: (string, string) -> Option<Claims>, env: Env,
                         bcryptHash: string -> string, mailSent: bool): Outcome
  {
    if !Truthy(nueva) then Outcome(rows, Error(400, MsgNoNewPassword))
    else if !Truthy(token) then Outcome(rows, Error(400, MsgNoToken))
    else
      var claims := jwtVerify(token.value, AccessKey(env));
      if claims.None? then Outcome(rows, Error(400, MsgBadOrExpiredToken))
      else if claims.value.id.None? || claims.value.id.value == 0 then Outcome(rows, Error(400, MsgBadToken))
      else
        var i := FindById(rows, claims.value.id);
        if i.None? then Outcome(rows, Error(404, MsgUserNotFound))
        else
          var rows' := rows[i.value := rows[i.value].(contrasena := Some(bcryptHash(nueva.value)))];
          Outcome(rows', if mailSent then PasswordChanged else Error(400, MsgBadOrExpiredToken))
  }

  /**
   * A reset changes only the password hash of the user the token names, and
   * it accepts a password the registration rule refuses.
   */
  lemma ResetChangesOnlyThatHash(rows: seq<Usuario>, token: string, nueva: string,
                                 v: (string, string) -> Option<Claims>, env: Env, h: string -> string, mailSent: bool)
    requires nueva != "" && token != ""
    requires v(token, AccessKey(env)).Some? && v(token, AccessKey(env)).value.id.Some?
    requires v(token, AccessKey(env)).value.id.value != 0
    requires FindById(rows, v(token, AccessKey(env)).value.id).Some?
    ensures var o := ResetPassword(rows, Some(token), Some(nueva), v, env, h, mailSent);
      var i := FindById(rows, v(token, AccessKey(env)).value.id).value;
      && |o.rows| == |rows|
      && o.rows[i] == rows[i].(contrasena := Some(h(nueva)))
      && (forall j :: 0 <= j < |rows| && j != i ==> o.rows[j] == rows[j])
      && (o.reply == PasswordChanged <==> mailSent)
  {
  }

  lemma ResetKeepsInvariant(rows: seq<Usuario>, nextId: nat, token: Option<string>, nueva: Option<string>,
                            v: (string, string) -> Option<Claims>, env: Env, h: string -> string, mailSent: bool)
    requires TableInvariant(rows, nextId)
    ensures TableInvariant(ResetPassword(rows, token, nueva, v, env, h, mailSent).rows, nextId)
  {
    if Truthy(nueva) && Truthy(token) {
      var claims := v(token.value, AccessKey(env));
      if claims.Some? {
        var i := FindById(rows, claims.value.id);
        if i.Some? {
          UpdateKeepsInvariant(rows, nextId, i.value, rows[i.value].(contrasena := Some(h(nueva.value))));
        }
      }
    }
  }

  // ---------------------------------------------------------------- activar2FA / verificar2FALogin

  /**
   * `activar2FA` for the authenticated user id: the new base32 `secret`
   * replaces whatever was stored, with no confirmation step.
   */
  function Activar2FA(rows: seq<Usuario>, userId: Option<int>, secret: string, qrCodeUrl: string): Outcome {
    var i := FindById(rows, userId);
    if i.None? then Outcome(rows, Error(404, MsgUserNotFound))
    else Outcome(rows[i.value := rows[i.value].(twofaSecret := Some(secret))], TwoFactorQr(qrCodeUrl))
  }

  /** Activation overwrites the secret unconditionally and touches nothing else. */
  lemma Activar2FAOverwrites(rows: seq<Usuario>, userId: int, secret: string, qr: string)
    requires FindById(rows, Some(userId)).Some?
    ensures var o := Activar2FA(rows, Some(userId), secret, qr);
      var i := FindById(rows, Some(userId)).value;
      && o.reply == TwoFactorQr(qr)
      && o.rows[i].twofaSecret == Some(secret)
      && o.rows[i] == rows[i].(twofaSecret := Some(secret))
      && forall j :: 0 <= j < |rows| && j != i ==> o.rows[j] == rows[j]
  {
  }

  lemma Activar2FAKeepsInvariant(rows: seq<Usuario>, nextId: nat, userId: Option<int>, secret: string, qr: string)
    requires TableInvariant(rows, nextId)
    ensures TableInvariant(Activar2FA(rows, userId, secret, qr).rows, nextId)
  {
    var i := FindById(rows, userId);
    if i.Some? {
      UpdateKeepsInvariant(rows, nextId, i.value, rows[i.value].(twofaSecret := Some(secret)));
    }
  }

  /**
   * `verificar2FALogin`: 400 when the user or its secret is missing, 401 on a
   * code `totpVerify` refuses, otherwise an access token (no refresh token).
   */
  function Verificar2FALogin(rows: seq<Usuario>, userId: Option<int>, token: string,
                             totpVerify: (string, string) -> bool, env: Env, nowMs: int): Reply
  {
    var i := FindById(rows, userId);
    if i.None? || !Truthy(rows[i.value].twofaSecret) then Error(400, MsgNo2FA)
    else if !totpVerify(rows[i.value].twofaSecret.value, token) then Error(401, MsgBad2FA)
    else AccessToken(AccessTokenFor(rows[i.value], env, nowMs))
  }

  /** A token is issued iff the user has a secret and the TOTP check accepts the code against it. */
  lemma TwoFactorTokenIff(rows: seq<Usuario>, userId: int, token: string, totp: (string, string) -> bool, env: Env, nowMs: int)
    ensures var r := Verificar2FALogin(rows, Some(userId), token, totp, env, nowMs);
      && (r.AccessToken? <==>
           (FindById(rows, Some(userId)).Some?
            && var u := rows[FindById(rows, Some(userId)).value];
               Truthy(u.twofaSecret) && totp(u.twofaSecret.value, token)))
      && (r.AccessToken? ==> r.token.claims.id == Some(userId))
      && (!r.AccessToken? ==> r.Error? && (r.status == 400 || r.status == 401))
  {
  }

  /** After activation, the login check is made against the secret just written. */
  lemma ActivateThenVerify(rows: seq<Usuario>, nextId: nat, userId: int, secret: string, qr: string, token: string,
                           totp: (string, string) -> bool, env: Env, nowMs: int)
    requires TableInvariant(rows, nextId)
    requires FindById(rows, Some(userId)).Some? && secret != ""
    ensures var o := Activar2FA(rows, Some(userId), secret, qr);
      Verificar2FALogin(o.rows, Some(userId), token, totp, env, nowMs).AccessToken? <==> totp(secret, token)
  {
    var i := FindById(rows, Some(userId)).value;
    var rows' := Activar2FA(rows, Some(userId), secret, qr).rows;
    var k := FindById(rows', Some(userId));
    assert rows'[i].id == userId;
    assert forall j :: 0 <= j < |rows| && j != i ==> rows'[j].id == rows[j].id != userId;
    assert k == Some(i);
  }

  // ---------------------------------------------------------------- the table

  class UserTable {
    var rows: seq<Usuario>
    var nextId: nat

    ghost predicate Valid()
      reads this
    {
      TableInvariant(rows, nextId)
    }

    constructor ()
      ensures Valid() && rows == [] && nextId == 1
    {
      rows := [];
      nextId := 1;
    }

    /** `Usuario.create(...)`: append a row with the next id. */
    method Create(u: Usuario)
      requires Valid()
      requires u.id == nextId && FindByEmail(rows, u.correo).None? && CodeWithExpiry(u)
      modifies this
      ensures Valid()
      ensures rows == old(rows) + [u] && nextId == old(nextId) + 1
    {
      rows := rows + [u];
      nextId := nextId + 1;
    }

    method RegistrarUsuario(body: RegistroBody, nowMs: int, code: nat, bcryptHash: string -> string, mailSent: bool)
      returns (reply: Reply)
      requires Valid()
      requires 100000 <= code < 999999
      modifies this
      ensures Valid()
      ensures var o := Registrar(old(rows), old(nextId), body, nowMs, code, bcryptHash, mailSent);
        rows == o.rows && reply == o.reply && nextId == (if rows == old(rows) then old(nextId) else old(nextId) + 1)
    {
      var err := RegisterCheck(rows, body);
      if err.Some? {
        return err.value;
      }
      var hashedPassword := bcryptHash(body.contrasena.value);
      var nuevo := NewRegistrant(nextId, body.nombre.value, body.correo.value, hashedPassword, code, nowMs);
      var id := nextId;
      Create(nuevo);
      if mailSent {
        reply := Registered(id);
      } else {
        reply := Error(500, MsgServer);
      }
    }

    method VerificarCodigo(correo: Option<string>, codigo: string, nowMs: int) returns (reply: Reply)
      requires Valid()
      modifies this
      ensures Valid() && nextId == old(nextId)
      ensures var o := Verificar(old(rows), correo, codigo, nowMs);
        rows == o.rows && reply == o.reply
    {
      if correo.None? {
        return Error(500, MsgServer);
      }
      var i := FindByEmail(rows, correo.value);
      if i.None? {
        return Error(400, MsgUserNotFound);
      }
      var usuario := rows[i.value];
      if !CodeAccepted(usuario, codigo, nowMs) {
        return Error(400, MsgBadCode);
      }
      usuario := usuario.(isVerified := true);
      usuario := usuario.(verificationCode := None);
      usuario := usuario.(verificationExpiresAt := None);
      rows := rows[i.value := usuario];
      reply := EmailVerified;
    }

    method LoginUsuario(correo: Option<string>, contrasena: Option<string>, bcryptCompare: (string, string) -> bool,
                        env: Env, nowMs: int) returns (reply: Reply)
      requires Valid()
      ensures reply == Login(rows, correo, contrasena, bcryptCompare, env, nowMs)
      ensures correo.Some? && contrasena.Some? ==>
        (reply.LoggedIn? <==>
           (FindByEmail(rows, correo.value).Some?
            && var u := rows[FindByEmail(rows, correo.value).value];
               u.isVerified && Truthy(u.contrasena) && bcryptCompare(contrasena.value, u.contrasena.value)))
      ensures reply.LoggedIn? ==> reply.usuario.correo == correo.value && reply.accessToken.claims.id == Some(reply.usuario.id)
      ensures !reply.LoggedIn? ==> reply.Error? && (reply.status == 400 || reply.status == 500)
    {
      if correo.None? {
        return Error(500, MsgServer);
      }
      var i := FindByEmail(rows, correo.value);
      if i.None? {
        return Error(400, MsgUserNotFound);
      }
      var u := rows[i.value];
      if !u.isVerified {
        return Error(400, MsgNotVerified);
      }
      if !Truthy(u.contrasena) {
        return Error(400, MsgGoogleAccount);
      }
      if contrasena.None? {
        return Error(500, MsgServer);
      }
      if !bcryptCompare(contrasena.value, u.contrasena.value) {
        return Error(400, MsgWrongPassword);
      }
      reply := LoggedIn(Perfil(u.id, u.nombre, u.correo, u.rol), AccessTokenFor(u, env, nowMs), RefreshTokenFor(u, env, nowMs));
    }

    method LoginConGoogleHandler(ticket: GoogleTicket, env: Env, nowMs: int) returns (reply: Reply)
      requires Valid()
      modifies this
      ensures Valid()
      ensures var o := LoginConGoogle(old(rows), old(nextId), ticket, env, nowMs);
        rows == o.rows && reply == o.reply && nextId == (if rows == old(rows) then old(nextId) else old(nextId) + 1)
    {
      if ticket.TicketRejected? {
        return Error(500, MsgGoogleError);
      }
      if ticket.payload.None? || !Truthy(ticket.payload.value.email) {
        return Error(400, MsgGoogleNoEmail);
      }
      var p := ticket.payload.value;
      var i := FindByEmail(rows, p.email.value);
      var usuario: Usuario;
      if i.Some? {
        usuario := rows[i.value];
      } else {
        usuario := NewGoogleUser(nextId, p, nowMs);
        Create(usuario);
      }
      reply := GoogleLoggedIn(usuario, AccessTokenFor(usuario, env, nowMs), RefreshTokenFor(usuario, env, nowMs));
    }

    method RefreshAccessToken(refreshToken: Option<string>, jwtVerify: (string, string) -> Option<Claims>,
                              env: Env, nowMs: int) returns (reply: Reply)
      requires Valid()
      ensures reply == Refresh(rows, refreshToken, jwtVerify, env, nowMs)
      ensures reply.AccessToken? <==>
        (Truthy(refreshToken) && jwtVerify(refreshToken.value, RefreshKey(env)).Some?
         && FindById(rows, jwtVerify(refreshToken.value, RefreshKey(env)).value.id).Some?)
      ensures reply.AccessToken? ==>
        reply.token.claims.id == jwtVerify(refreshToken.value, RefreshKey(env)).value.id
        && reply.token.key == AccessKey(env) && reply.token.expiresAt - reply.token.issuedAt == 900
      ensures !reply.AccessToken? ==> reply.Error? && (reply.status == 401 || reply.status == 403)
    {
      if !Truthy(refreshToken) {
        return Error(401, MsgNoRefresh);
      }
      var claims := jwtVerify(refreshToken.value, RefreshKey(env));
      if claims.None? {
        return Error(403, MsgBadRefresh);
      }
      var i := FindById(rows, claims.value.id);
      if i.None? {
        return Error(401, MsgUserNotFound);
      }
      reply := AccessToken(AccessTokenFor(rows[i.value], env, nowMs));
    }

    method ResetearContrasena(token: Option<string>, nueva: Option<string>, jwtVerify: (string, string) -> Option<Claims>,
                              env: Env, bcryptHash: string -> string, mailSent: bool) returns (reply: Reply)
      requires Valid()
      modifies this
      ensures Valid() && nextId == old(nextId)
      ensures var o := ResetPassword(old(rows), token, nueva, jwtVerify, env, bcryptHash, mailSent);
        rows == o.rows && reply == o.reply
    {
      if !Truthy(nueva) {
        return Error(400, MsgNoNewPassword);
      }
      if !Truthy(token) {
        return Error(400, MsgNoToken);
      }
      var decoded := jwtVerify(token.value, AccessKey(env));
      if decoded.None? {
        return Error(400, MsgBadOrExpiredToken);
      }
      if decoded.value.id.None? || decoded.value.id.value == 0 {
        return Error(400, MsgBadToken);
      }
      var i := FindById(rows, decoded.value.id);
      if i.None? {
        return Error(404, MsgUserNotFound);
      }
      rows := rows[i.value := rows[i.value].(contrasena := Some(bcryptHash(nueva.value)))];
      if mailSent {
        reply := PasswordChanged;
      } else {
        reply := Error(400, MsgBadOrExpiredToken);
      }
    }

    method Activar2FAHandler(userId: Option<int>, secret: string, qrCodeUrl: string) returns (reply: Reply)
      requires Valid()
      modifies this
      ensures Valid() && nextId == old(nextId)
      ensures var o := Activar2FA(old(rows), userId, secret, qrCodeUrl);
        rows == o.rows && reply == o.reply
    {
      var i := FindById(rows, userId);
      if i.None? {
        return Error(404, MsgUserNotFound);
      }
      rows := rows[i.value := rows[i.value].(twofaSecret := Some(secret))];
      reply := TwoFactorQr(qrCodeUrl);
    }

    method Verificar2FALoginHandler(userId: Option<int>, token: string, totpVerify: (string, string) -> bool,
                                    env: Env, nowMs: int) returns (reply: Reply)
      requires Valid()
      ensures reply == Verificar2FALogin(rows, userId, token, totpVerify, env, nowMs)
      ensures reply.AccessToken? <==>
        (FindById(rows, userId).Some?
         && var u := rows[FindById(rows, userId).value];
            Truthy(u.twofaSecret) && totpVerify(u.twofaSecret.value, token))
      ensures reply.AccessToken? ==> reply.token.claims.id == userId
      ensures !reply.AccessToken? ==> reply.Error? && (reply.status == 400 || reply.status == 401)
    {
      var i := FindById(rows, userId);
      if i.None? || !Truthy(rows[i.value].twofaSecret) {
        return Error(400, MsgNo2FA);
      }
      var secret := rows[i.value].twofaSecret.value;
      if !totpVerify(secret, token) {
        return Error(401, MsgBad2FA);
      }
      reply := AccessToken(AccessTokenFor(rows[i.value], env, nowMs));
    }
  }
}
