# PisciApp in Dafny

PisciApp is a fish-farming management web application. Its Express/Sequelize
backend covers several areas:

- user accounts: registration with an e-mailed 6-digit code, login, Google
  login, refresh, password reset and TOTP two-factor;
- the trial, subscription and grace-period guards;
- the scheduled reminder and cleanup jobs;
- growth cycles with their tank links, deaths, feed, chemicals and transfers;
- tanks with their measurements, inventory, products and photo uploads.

Its Angular frontend keeps the access token in browser storage. An HTTP
interceptor attaches the token and refreshes it on a 401. An error service
turns HTTP errors into one message, and the registration form and the
navigation bar build on these.

This project models each of those pieces as Dafny datatypes, functions and
classes, and proves what the handlers promise:

- which requests succeed, with what status and message;
- what each table holds afterwards, and which invariants the tables keep;
- round trips such as hex and decimal text;
- conservation of fish in a transfer;
- the exact recipients of each job.

Database tables are classes whose `seq`/`map` fields the handler methods
reassign. The pure helpers are functions with lemmas beside them. The
loops of the scheduled jobs and of cycle creation are methods with
invariants.

Modules, one per file:

| file | module | source |
|---|---|---|
| wrappers.dfy | Wrappers | `Option`, `Result` |
| strings.dfy | Strings | JavaScript `trim`, `split`, `includes`, case mapping |
| decimal.dfy | Decimal | decimal text of numbers (verification codes, default tank names) |
| crypto.dfy | Crypto | JWT signing and verifying, argon2/bcrypt and TOTP as oracles, hex |
| password_policy.dfy | PasswordPolicy | the strong-password regular expression |
| usuarios.dfy | Usuarios | Backend/src/controllers/usuario.ts |
| sesiones.dfy | Sesiones | Backend/src/utils/token.ts |
| verify_token.dfy | VerifyToken | Backend/src/middlewares/verifyToken.ts |
| check_trial.dfy | CheckTrial | Backend/src/middlewares/checkTrial.ts |
| cron_jobs.dfy | CronJobs | Backend/src/services/cronJobs.ts |
| ciclos.dfy | Ciclos | Backend/src/controllers/ciclo.ts |
| tanques.dfy | Tanques | Backend/src/controllers/tanque.ts |
| inventario.dfy | Inventario | Backend/src/controllers/inventario.ts |
| productos.dfy | Productos | Backend/src/controllers/producto.ts |
| upload.dfy | Upload | Backend/src/middlewares/upload.ts |
| auth_service.dfy | AuthClient | PisciApp/src/app/core/services/auth.service.ts |
| auth_interceptor.dfy | AuthInterceptorModel | PisciApp/src/app/core/interceptors/auth.interceptor.ts |
| error_service.dfy | ErrorMessages | PisciApp/src/app/core/services/error.service.ts |
| register_form.dfy | RegisterForm | PisciApp/src/app/features/auth/pages/register/register.component.ts |
| navbar.dfy | Navbar | PisciApp/src/app/shared/components/navbar/navbar.component.ts |

Where the design of the system and its code differ, the model follows the
code:

- Refresh tokens are plain JWTs that the handler checks only by signature.
  The handler does not rotate sessions, revoke them or read them from the
  session table.
- Login does not consult the second factor: a stored TOTP secret changes
  nothing about the password login.
- `activar2FA` overwrites the secret at once. There is no pending,
  unconfirmed secret.
- `generateTokens` writes a session row, but the handlers in `usuario.ts`
  sign their own tokens and never call it.

Instants are milliseconds since the epoch, passed in as parameters. A day
is 24 hours.

## Model

| member | source | states |
|---|---|---|
| Strings.Trim | Backend/src/controllers/usuario.ts:97-108 | `trim` returns a sub-range of the input with only whitespace cut off at both ends, and no whitespace left at either end |
| Strings.TrimIdempotent | Backend/src/controllers/usuario.ts:97-108 | trimming twice is trimming once |
| Strings.TrimUnique | Backend/src/controllers/usuario.ts:97-108 | whitespace-padding around a core without edge whitespace trims back to exactly that core |
| Strings.TrimIgnoresPadding | Backend/src/controllers/usuario.ts:97-108 | extra whitespace around a string does not change what `trim` returns |
| Strings.Split | Backend/src/middlewares/verifyToken.ts:5 | `split(sep)` gives at least one part and no part contains the separator |
| Strings.JoinSplit | Backend/src/middlewares/verifyToken.ts:5 | joining the parts of a split with the separator gives back the string |
| Strings.SplitWithoutSeparator | Backend/src/middlewares/verifyToken.ts:5 | a string without the separator splits into itself alone |
| Strings.SplitFirstField | Backend/src/middlewares/verifyToken.ts:5 | a separator-free field followed by the separator is split off as the first part |
| Strings.Includes | PisciApp/src/app/core/interceptors/auth.interceptor.ts:35-40 | `includes` is true exactly when the pattern occurs at some index |
| Strings.ToLower | Backend/src/middlewares/upload.ts:30 | `toLowerCase` maps each character, keeping the length |
| Strings.ToUpper | PisciApp/src/app/shared/components/navbar/navbar.component.ts:35-38 | `toUpperCase` maps each character on its own, keeping the length: ASCII and Latin-1 lower-case letters to their capitals, 'ÿ' to 'Ÿ' and 'µ' to 'Μ' |
| Strings.CharAt0 | PisciApp/src/app/shared/components/navbar/navbar.component.ts:35-38 | `charAt(0)` has at most one character, and exactly one when the string is non-empty |
| Decimal.NatToText | Backend/src/controllers/usuario.ts:46-62 | the decimal text of a number is a non-empty digit string without a leading zero |
| Decimal.ParseNatToText | Backend/src/controllers/usuario.ts:46-62 | reading the decimal text back gives the number |
| Decimal.NatToTextInjective | Backend/src/controllers/usuario.ts:46-62 | different numbers have different decimal texts |
| Decimal.IntToTextInjective | PisciApp/src/app/core/services/error.service.ts:77 | different integers, negative ones included, have different decimal texts |
| Decimal.TextLengthSix | Backend/src/controllers/usuario.ts:46-62 | a code in [100000, 1000000) has exactly six digits |
| Crypto.Sign | Backend/src/utils/token.ts:10-17 | a signed token records the claims, key and algorithm; its issue second contains now and it expires `lifetime` seconds later |
| Crypto.KeyOr | Backend/src/middlewares/verifyToken.ts:9 | `process.env.X || fallback`: a set, non-empty variable is used, otherwise the fallback |
| Crypto.HexEncode | Backend/src/utils/token.ts:20 | hex encoding gives two lower-case hex digits per byte |
| Crypto.HexRoundTrip | Backend/src/utils/token.ts:20 | decoding the hex text gives the bytes back |
| Crypto.HexEncodeInjective | Backend/src/utils/token.ts:20 | different random bytes give different hex secrets |
| PasswordPolicy.MatchesStrongPasswordRegex | Backend/src/controllers/usuario.ts:27-29 | the regular expression as JavaScript runs it: four look-aheads from the start and the anchored class run; RegexIsStrongPassword characterises it |
| PasswordPolicy.StrongPassword | Backend/src/controllers/usuario.ts:27-34 | the rule the message states: at least 8 allowed characters with a lower-case letter, a capital, a digit and a special character |
| PasswordPolicy.RegexIsStrongPassword | Backend/src/controllers/usuario.ts:27-34 | the regular expression accepts a password iff it has at least 8 characters from `A-Za-z0-9@$!%*?&` with a lower-case letter, an upper-case letter, a digit and a special character |
| PasswordPolicy.LookaheadWithoutTerminators | Backend/src/controllers/usuario.ts:27-34 | on a string without line terminators a look-ahead `(?=.*[k])` succeeds iff some character is of class k |
| PasswordPolicy.ShortPasswordRejected | Backend/src/controllers/usuario.ts:27-34 | fewer than 8 characters is always refused |
| PasswordPolicy.PasswordWithSpaceRejected | Backend/src/controllers/usuario.ts:27-34 | a password containing a space is refused |
| Usuarios.FindByEmail | Backend/src/controllers/usuario.ts:37-40 | the index found holds that e-mail and no earlier row does; `None` iff no row has it |
| Usuarios.FindById | Backend/src/middlewares/checkTrial.ts:6 | the index found holds that primary key; `None` iff no row has it or the id is missing |
| Usuarios.RegisterCheck | Backend/src/controllers/usuario.ts:22-40 | every refusal of registration is a 400 |
| Usuarios.NewRegistrant | Backend/src/controllers/usuario.ts:46-62 | the row `Usuario.create` writes on registration; its fields are stated by NewRegistrantState |
| Usuarios.Registrar | Backend/src/controllers/usuario.ts:17-79 | the table and reply of `registrarUsuario`: unchanged with the first refusal `RegisterCheck` finds, else the new row appended and 201, or 500 when the e-mail fails after the row exists; characterised by RegisterCreatesIff and RegistrarKeepsInvariant |
| Usuarios.RegisterMissingFieldFirst | Backend/src/controllers/usuario.ts:22-24 | a missing or empty name, e-mail or password gives 400 "Faltan datos obligatorios" and the table is unchanged, before any lookup |
| Usuarios.RegisterCreatesIff | Backend/src/controllers/usuario.ts:22-62 | a row is written iff the three fields are present, the password is strong and no row has the e-mail |
| Usuarios.NewRegistrantState | Backend/src/controllers/usuario.ts:46-62 | a new registrant is an unverified Cliente on trial, not in grace, with a 6-digit code expiring exactly 15 minutes from now and a charge date 30 days ahead |
| Usuarios.RegistrarKeepsInvariant | Backend/src/controllers/usuario.ts:17-79 | registration keeps e-mails unique, ids below the next id, and code and expiry set or cleared together |
| Usuarios.AppendKeepsInvariant | Backend/src/controllers/usuario.ts:51 | a created row with the next id, a new e-mail and its code and expiry in step keeps the table invariant |
| Usuarios.UpdateKeepsInvariant | Backend/src/controllers/usuario.ts:105-108 | rewriting one row without changing its id or e-mail, with code and expiry in step, keeps the table invariant |
| Usuarios.CodeAccepted | Backend/src/controllers/usuario.ts:97-101 | the stored and submitted codes agree after trimming, and the expiry is set and not before now; ExpiredCodeRefused and CodePaddingIgnored state its edges |
| Usuarios.MarkVerified | Backend/src/controllers/usuario.ts:105-107 | the row after a successful check: verified, with code and expiry cleared; VerificationIsSingleUse states that no code is accepted afterwards |
| Usuarios.Verificar | Backend/src/controllers/usuario.ts:80-115 | the table and reply of `verificarCodigo`; characterised by VerificarSucceedsIff |
| Usuarios.VerificarSucceedsIff | Backend/src/controllers/usuario.ts:80-115 | verification succeeds iff the user exists and the trimmed codes match with a non-null expiry not before now; success changes only that row, marking it verified and clearing code and expiry |
| Usuarios.ExpiredCodeRefused | Backend/src/controllers/usuario.ts:97-102 | a matching code past its expiry is refused |
| Usuarios.VerificationIsSingleUse | Backend/src/controllers/usuario.ts:105-108 | after a successful verification no later code is accepted |
| Usuarios.CodePaddingIgnored | Backend/src/controllers/usuario.ts:97-99 | whitespace around the submitted code does not change the outcome |
| Usuarios.VerificarKeepsInvariant | Backend/src/controllers/usuario.ts:80-115 | verification keeps the table invariant |
| Usuarios.AccessTokenFor | Backend/src/controllers/usuario.ts:141-146 | the access token: claims id, correo and rol, signed with `JWT_SECRET` or "secret", valid 15 minutes |
| Usuarios.RefreshTokenFor | Backend/src/controllers/usuario.ts:148-153 | the refresh token: claim id only, signed with `JWT_REFRESH_SECRET` or "refresh", valid 7 days |
| Usuarios.Login | Backend/src/controllers/usuario.ts:117-170 | the reply of `loginUsuario`, reading the table only; characterised by LoginIssuesTokensIff |
| Usuarios.LoginIssuesTokensIff | Backend/src/controllers/usuario.ts:117-170 | tokens are issued iff the e-mail is known, the account verified, a password hash present and the password right; each refusal is a 400, in that order |
| Usuarios.UnverifiedLoginRefused | Backend/src/controllers/usuario.ts:126-128 | an unverified account is refused whatever the password |
| Usuarios.LoginIgnoresTwoFactor | Backend/src/controllers/usuario.ts:117-170 | a stored TOTP secret does not change the password login's answer |
| Usuarios.SameEmailsSameLookup | Backend/src/controllers/usuario.ts:37-40 | tables whose rows carry the same e-mails resolve an e-mail to the same index |
| Usuarios.NewGoogleUser | Backend/src/controllers/usuario.ts:190-202 | the row a first Google login creates: name or "Usuario", the token's e-mail, subject and picture, verified, on trial, no password |
| Usuarios.LoginConGoogle | Backend/src/controllers/usuario.ts:174-228 | the table and reply of `loginConGoogle`; characterised by GoogleFindOrCreate |
| Usuarios.GoogleFindOrCreate | Backend/src/controllers/usuario.ts:184-203 | an unknown e-mail creates a verified, passwordless row with google_id = sub; a known row is logged in unchanged, verified or not |
| Usuarios.LoginConGoogleKeepsInvariant | Backend/src/controllers/usuario.ts:174-228 | Google login keeps the table invariant |
| Usuarios.Refresh | Backend/src/controllers/usuario.ts:229-254 | the reply of `refreshAccessToken`; characterised by RefreshSucceedsIff |
| Usuarios.RefreshSucceedsIff | Backend/src/controllers/usuario.ts:229-254 | a refresh gives an access token iff the token verifies under the refresh key and names an existing user |
| Usuarios.ResetPassword | Backend/src/controllers/usuario.ts:276-321 | the table and reply of `resetearContraseña`; characterised by ResetChangesOnlyThatHash |
| Usuarios.ResetChangesOnlyThatHash | Backend/src/controllers/usuario.ts:276-321 | a successful reset replaces only that user's password hash |
| Usuarios.ResetKeepsInvariant | Backend/src/controllers/usuario.ts:276-321 | a reset keeps the table invariant |
| Usuarios.Activar2FA | Backend/src/controllers/usuario.ts:323-337 | the table and reply of `activar2FA`; characterised by Activar2FAOverwrites |
| Usuarios.Activar2FAOverwrites | Backend/src/controllers/usuario.ts:323-337 | activation overwrites the secret unconditionally and changes nothing else |
| Usuarios.Activar2FAKeepsInvariant | Backend/src/controllers/usuario.ts:323-337 | activation keeps the table invariant |
| Usuarios.Verificar2FALogin | Backend/src/controllers/usuario.ts:338-362 | the reply of `verificar2FALogin`; characterised by TwoFactorTokenIff |
| Usuarios.TwoFactorTokenIff | Backend/src/controllers/usuario.ts:338-362 | an access token is issued iff the user has a secret and the TOTP check accepts the code; no secret gives 400, a bad code 401 |
| Usuarios.ActivateThenVerify | Backend/src/controllers/usuario.ts:323-362 | after activation the login check uses the secret just written |
| Usuarios.UserTable.constructor | Backend/src/controllers/usuario.ts:17-79 | an empty table satisfying the invariant |
| Usuarios.UserTable.Create | Backend/src/controllers/usuario.ts:51 | `Usuario.create` appends one row with the next id and keeps the invariant |
| Usuarios.UserTable.RegistrarUsuario | Backend/src/controllers/usuario.ts:17-79 | the new table and reply are those of `Registrar`; the invariant is kept |
| Usuarios.UserTable.VerificarCodigo | Backend/src/controllers/usuario.ts:80-115 | the new table and reply are those of `Verificar` |
| Usuarios.UserTable.LoginUsuario | Backend/src/controllers/usuario.ts:117-170 | reads only; with e-mail and password given, tokens iff the e-mail is known, the account verified, a hash stored and bcrypt accepts the password; the profile is the account with that e-mail and the access token names its id; every refusal is 400, or 500 where bcrypt or the lookup would throw |
| Usuarios.UserTable.LoginConGoogleHandler | Backend/src/controllers/usuario.ts:174-228 | the new table and reply are those of `LoginConGoogle` |
| Usuarios.UserTable.RefreshAccessToken | Backend/src/controllers/usuario.ts:229-254 | reads only; a new access token iff a non-empty refresh token verifies under the refresh key and names an existing user; the token carries that id, the access key and a 15-minute lifetime; refusals are 401 or 403 |
| Usuarios.UserTable.ResetearContrasena | Backend/src/controllers/usuario.ts:276-321 | the new table and reply are those of `ResetPassword` |
| Usuarios.UserTable.Activar2FAHandler | Backend/src/controllers/usuario.ts:323-337 | the new table and reply are those of `Activar2FA` |
| Usuarios.UserTable.Verificar2FALoginHandler | Backend/src/controllers/usuario.ts:338-362 | reads only; an access token iff the user exists, has a non-empty secret and TOTP accepts the code against it; the token names the user; refusals are 400 or 401 |
| Sesiones.CountAfterAppend | Backend/src/utils/token.ts:28-33 | an appended row adds one session for its user and none for anyone else |
| Sesiones.RefreshSecret | Backend/src/utils/token.ts:20 | the refresh secret is 128 lower-case hex characters |
| Sesiones.StoredHashIsNotTheSecret | Backend/src/utils/token.ts:20-23 | the stored argon2 hash never equals the secret returned to the client |
| Sesiones.SessionLedger.constructor | Backend/src/utils/token.ts:28-33 | an empty session table |
| Sesiones.SessionLedger.GenerateTokens | Backend/src/utils/token.ts:8-36 | with a private key, exactly one non-revoked row for the user is appended, holding the hash of the returned secret and expiring 7 days after now, and the access token is RS256 with sub = id and a 15-minute life; without a key nothing is stored |
| VerifyToken.BearerToken | Backend/src/middlewares/verifyToken.ts:5 | a token found comes from a header and contains no space |
| VerifyToken.BearerTokenOfHeader | Backend/src/middlewares/verifyToken.ts:5 | "<scheme> <token>" yields the token, whatever the scheme word |
| VerifyToken.HeaderWithoutSpaceHasNoToken | Backend/src/middlewares/verifyToken.ts:5-6 | a header without a space, such as "Bearer", yields no token |
| VerifyToken.Request.constructor | Backend/src/middlewares/verifyToken.ts:10 | a request without decoded claims |
| VerifyToken.Verify | Backend/src/middlewares/verifyToken.ts:4-15 | the decision is `Decide`'s; only on Next are the verified claims put on the request |
| VerifyToken.Decide | Backend/src/middlewares/verifyToken.ts:4-15 | every refusal is a 401, and the request goes on iff a non-empty token verifies under the access key |
| VerifyToken.MissingHeaderRefused | Backend/src/middlewares/verifyToken.ts:5-6 | no header gives 401 "Token requerido" |
| VerifyToken.ValidBearerAccepted | Backend/src/middlewares/verifyToken.ts:8-11 | "Bearer <t>" with a token the key accepts goes on |
| CheckTrial.Before | Backend/src/middlewares/checkTrial.ts:8 | a set date strictly before now; a null date is never before |
| CheckTrial.PeriodoPrueba | Backend/src/middlewares/checkTrial.ts:4-13 | the trial guard either goes on or refuses with 403 |
| CheckTrial.SuscripcionActiva | Backend/src/middlewares/checkTrial.ts:14-25 | the subscription guard goes on, or answers 404 or 403 |
| CheckTrial.PeriodoGracia | Backend/src/middlewares/checkTrial.ts:26-41 | the grace guard goes on, or answers 404 or one of the two 403s |
| CheckTrial.PruebaRefusesIff | Backend/src/middlewares/checkTrial.ts:8-12 | 403 iff a known user is on trial with a charge date set and before now |
| CheckTrial.PruebaLetsUnknownUserThrough | Backend/src/middlewares/checkTrial.ts:6-12 | an unknown user passes the trial guard |
| CheckTrial.SuscripcionPassesIff | Backend/src/middlewares/checkTrial.ts:18-24 | a user passes iff known with a charge date set and not before now |
| CheckTrial.SuscripcionImpliesPrueba | Backend/src/middlewares/checkTrial.ts:8-24 | whoever passes the subscription guard passes the trial guard |
| CheckTrial.ChargeDateAtNowNotPassed | Backend/src/middlewares/checkTrial.ts:8-20 | a charge date equal to now passes both guards |
| CheckTrial.GraciaPassesIff | Backend/src/middlewares/checkTrial.ts:30-40 | the grace guard passes iff the user is known and not in grace; a user in grace is always refused with 403 |
| CronJobs.GraceRecipients | Backend/src/services/cronJobs.ts:16-21 | the first job's `findAll`: in grace with a grace end after now, in table order; characterised by GraceRecipientsExactly |
| CronJobs.GraceRecipientsExactly | Backend/src/services/cronJobs.ts:16-21 | a user is mailed iff in the table, in grace, with a grace end strictly after now |
| CronJobs.GraceReminders | Backend/src/services/cronJobs.ts:28-36 | the loop mails exactly the selected users, in table order |
| CronJobs.CeilDiv | Backend/src/services/cronJobs.ts:49-51 | `Math.ceil(a / b)` is the least q with a <= q * b |
| CronJobs.DaysLeft | Backend/src/services/cronJobs.ts:49-51 | `Math.ceil` of the time to the charge date in days; ThreeDaysLeftIff states when it is 3 |
| CronJobs.ThreeDaysLeftIff | Backend/src/services/cronJobs.ts:49-53 | three days left iff the charge date is more than 2 and at most 3 days ahead |
| CronJobs.TrialRecipients | Backend/src/services/cronJobs.ts:45-53 | the second job's recipients, in table order; characterised by TrialRecipientsExactly |
| CronJobs.TrialRecipientsExactly | Backend/src/services/cronJobs.ts:45-59 | a user is mailed iff on trial with a charge date more than 2 and at most 3 days ahead |
| CronJobs.TrialReminders | Backend/src/services/cronJobs.ts:47-61 | the loop mails exactly those users, in table order |
| CronJobs.Stale | Backend/src/services/cronJobs.ts:73-77 | the third job's `where`: unverified, not deleted, with a verification expiry before now |
| CronJobs.StaleCount | Backend/src/services/cronJobs.ts:70-79 | the number of stale rows; CountIsRowsChanged states that it is the number of rows the update changes |
| CronJobs.Cleaned | Backend/src/services/cronJobs.ts:70-79 | the bulk update keeps the table length |
| CronJobs.CleanedMarksExactlyStale | Backend/src/services/cronJobs.ts:70-79 | exactly the unverified, undeleted rows with an expiry before now get `eliminado`; no other row or field changes |
| CronJobs.CleanedPrefix | Backend/src/services/cronJobs.ts:70-79 | cleaning a prefix gives the prefix of the cleaned table |
| CronJobs.CountIsRowsChanged | Backend/src/services/cronJobs.ts:70-83 | the reported count is the number of rows changed |
| CronJobs.NoStaleCountsZero | Backend/src/services/cronJobs.ts:70-83 | with no stale row the count is 0 |
| CronJobs.CleanupTwice | Backend/src/services/cronJobs.ts:70-83 | a second run at the same instant changes nothing and reports 0 |
| CronJobs.Cleanup | Backend/src/services/cronJobs.ts:67-84 | the user table after the update is `Cleaned` of the old one and the count is the number of stale rows |
| Tanques.HighestIdOf | Backend/src/controllers/tanque.ts:13 | the tank found belongs to the user and has the highest id among the user's tanks; `None` iff the user has none |
| Tanques.NextNumber | Backend/src/controllers/tanque.ts:14 | the number is 1 + the highest id of the user's tanks, or 1 |
| Tanques.DefaultName | Backend/src/controllers/tanque.ts:11-16 | the name of a tank created without one; stated by DefaultNameReadsBack and FirstTankName |
| Tanques.DefaultNameReadsBack | Backend/src/controllers/tanque.ts:11-16 | a default name is "tanque " followed by the next number's digits, which read back as that number |
| Tanques.FirstTankName | Backend/src/controllers/tanque.ts:11-16 | a user's first tank is named "tanque 1" |
| Tanques.FindOwned | Backend/src/controllers/tanque.ts:41-43 | the tank found has that id and owner; `None` iff none does |
| Tanques.FindTank | Backend/src/controllers/ciclo.ts:129-131 | the tank found has that id; `None` iff none does |
| Tanques.Newest | Backend/src/controllers/tanque.ts:81-83 | the measurement found belongs to the tank and none of its measurements is newer |
| Tanques.ApplyTanque | Backend/src/controllers/tanque.ts:62-65 | each field of the edit that is `!== undefined` is stored; characterised by ApplyTanqueFields |
| Tanques.ApplyLecturas | Backend/src/controllers/tanque.ts:85-92 | each reading that is `!== undefined` is stored; ActualizarMediciones writes it to the newest measurement |
| Tanques.ApplyTanqueFields | Backend/src/controllers/tanque.ts:62-66 | an edit keeps id and owner, stores each supplied field and keeps each absent one |
| Tanques.ApplyIdempotent | Backend/src/controllers/tanque.ts:58-93 | applying the same edit twice is applying it once |
| Tanques.TankTable.constructor | Backend/src/controllers/tanque.ts:5-33 | empty tables satisfying the invariant |
| Tanques.TankTable.CrearTanque | Backend/src/controllers/tanque.ts:5-33 | 400 on a missing volume, type or owner; otherwise one available tank with the given or default name and one measurement with every reading 0 |
| Tanques.TankTable.EliminarTanque | Backend/src/controllers/tanque.ts:35-50 | only the owner's tank is removed; otherwise 400 or 404 and nothing changes |
| Tanques.TankTable.EditarTanque | Backend/src/controllers/tanque.ts:52-71 | only the owner's tank is edited, in the supplied fields; otherwise 400 or 404 and nothing changes |
| Tanques.TankTable.ActualizarMediciones | Backend/src/controllers/tanque.ts:73-98 | only the tank's newest measurement is updated, in the supplied readings; 404 when it has none |
| Tanques.TankTable.SetDisponible | Backend/src/controllers/ciclo.ts:156-163 | sets one tank's availability and changes nothing else |
| Ciclos.AsArray | Backend/src/controllers/ciclo.ts:14 | a scalar tank id becomes a one-element list; an array is kept |
| Ciclos.FindLink | Backend/src/controllers/ciclo.ts:116-117 | the link found has key (ciclo, tanque); `None` iff no link has it |
| Ciclos.FindLinkUnique | Backend/src/models/ciclo.ts:45-46 | with unique keys the link found is the only one with that key |
| Ciclos.AppendKeepsKeys | Backend/src/models/ciclo.ts:45-46 | appending a link whose key is absent keeps keys unique |
| Ciclos.SetCount | Backend/src/controllers/ciclo.ts:147 | only link i's count changes |
| Ciclos.SetCountKeys | Backend/src/controllers/ciclo.ts:147 | setting a count keeps every key findable where it was |
| Ciclos.AddFish | Backend/src/controllers/ciclo.ts:148-154 | links are never lost and every other key's link stays where it was |
| Ciclos.AddFishSpec | Backend/src/controllers/ciclo.ts:148-154 | the destination link holds its old count (0 if new) plus cantidad, keys stay unique |
| Ciclos.RemoveAt | Backend/src/controllers/ciclo.ts:156-158 | exactly link i is removed |
| Ciclos.RemoveAtSpec | Backend/src/controllers/ciclo.ts:156-158 | removing a link drops its key and keeps every other key findable |
| Ciclos.CycleFish | Backend/src/controllers/ciclo.ts:146-154 | the fish of one cycle summed over its links; how it changes is stated by the CycleFish lemmas and MoveFishConserves |
| Ciclos.CycleFishConcat | Backend/src/controllers/ciclo.ts:146-154 | a cycle's fish total over two link lists is the sum of the totals |
| Ciclos.CycleFishSetCount | Backend/src/controllers/ciclo.ts:147 | setting one count changes the total by the difference |
| Ciclos.CycleFishRemoveAt | Backend/src/controllers/ciclo.ts:156-158 | removing a link takes its share off the total |
| Ciclos.CycleFishAddFish | Backend/src/controllers/ciclo.ts:148-154 | adding fish raises only that cycle's total, by exactly that many |
| Ciclos.NewLinks | Backend/src/controllers/ciclo.ts:15-17 | one link per listed tank, each with the full fish count |
| Ciclos.FirstRepeat | Backend/src/controllers/ciclo.ts:15-17 | the ids before the first repeat are distinct, and the repeat was listed before |
| Ciclos.FirstRepeatStep | Backend/src/controllers/ciclo.ts:15-17 | up to the first repeat each id is new |
| Ciclos.NewLinksClash | Backend/src/controllers/ciclo.ts:15-17 | a tank id clashes with the links made so far iff it was listed before |
| Ciclos.MoveFish | Backend/src/controllers/ciclo.ts:146-159 | the links after a transfer: origin decreased, destination increased or created, an emptied origin deleted; stated by MoveFishConserves, MoveFishDestination and MoveFishOrigin |
| Ciclos.MoveFishConserves | Backend/src/controllers/ciclo.ts:146-154 | a transfer leaves the fish total of every cycle unchanged |
| Ciclos.MoveFishDestination | Backend/src/controllers/ciclo.ts:148-154 | after a transfer keys are unique and the destination holds its old count (0 if new) plus cantidad |
| Ciclos.MoveFishOrigin | Backend/src/controllers/ciclo.ts:146-158 | the origin holds its old count minus cantidad, or is deleted when that is 0 |
| Ciclos.MoveFishCycles | Backend/src/controllers/ciclo.ts:146-158 | a transfer creates links only for its own cycle |
| Ciclos.MoveFishSteps | Backend/src/controllers/ciclo.ts:146-158 | after the origin is decreased and the destination increased, keys are unique, the origin link holds its old count minus cantidad and the destination its old count (0 if new) plus cantidad |
| Ciclos.CycleBook.constructor | Backend/src/controllers/ciclo.ts:6-24 | empty tables satisfying the invariant |
| Ciclos.TanquesTruthy | Backend/src/controllers/ciclo.ts:10 | `!tanques` fails for a missing value and the number 0, never for an array |
| Ciclos.CycleBook.CrearCiclo | Backend/src/controllers/ciclo.ts:6-24 | 400 on a missing field; otherwise the cycle plus one link per listed tank up to the first repeated tank, 201, or 500 when a tank repeats |
| Ciclos.CycleBook.EnlazarTanques | Backend/src/controllers/ciclo.ts:15-17 | the loop appends `NewLinks` of the tanks before the first repeat and reports whether it reached the end |
| Ciclos.CycleBook.CerrarCiclo | Backend/src/controllers/ciclo.ts:26-44 | 400 on a missing field, 404 on another user's or unknown cycle, 400 when already closed, else 200 with the closed row; the store is not changed |
| Ciclos.CycleBook.CerrarCicloPersisted | Backend/src/controllers/ciclo.ts:26-44 | the same answers, and the closing date is stored |
| Ciclos.CycleBook.CerrarDosVeces | Backend/src/controllers/ciclo.ts:38-40 | as written, closing an open cycle twice answers 200 both times |
| Ciclos.CycleBook.CerrarDosVecesPersisted | Backend/src/controllers/ciclo.ts:36-40 | with the save, the second close is refused with the first date |
| Ciclos.CycleBook.ActualizarBajas | Backend/src/controllers/ciclo.ts:46-64 | as written: 400 on a falsy field, 404 for an unknown cycle, and otherwise always 500, because `Bajas.create` never sets the NOT NULL `tanque_id`; it never answers with an updated cycle and writes nothing |
| Ciclos.CycleBook.ActualizarBajasWithTank | Backend/src/controllers/ciclo.ts:46-64 | with the tank stored under `tanque_id`: 400 and 404 change nothing; otherwise one death record is appended and cantidad moves from the fish count to the deaths (null read as 0), and nothing else changes |
| Ciclos.CycleBook.IngresarInsumo | Backend/src/controllers/ciclo.ts:66-108 | after validation one feed or chemical record is appended and a truthy cost is added to the cycle's costs; a missing cost fails with 500 |
| Ciclos.CycleBook.CambiarTanque | Backend/src/controllers/ciclo.ts:110-168 | the reply follows the seven checks in order; the movement row is written before the fish check; a Done transfer moves the fish and updates availability |
| Ciclos.CycleBook.MoveLinks | Backend/src/controllers/ciclo.ts:146-159 | the origin link loses the fish, the destination link gains them or is created, an emptied origin link is deleted: the links become `MoveFish` of the old ones, with keys still unique and every link naming a stored cycle |
| Ciclos.CycleBook.MoverPeces | Backend/src/controllers/ciclo.ts:146-163 | the links become `MoveFish` of the old ones and the tanks `Availability` of the old ones |
| Ciclos.TransferCheck | Backend/src/controllers/ciclo.ts:113-144 | a Done answer means every check passed: the fields are truthy, the origin is linked to an existing cycle, origin and destination differ and exist, the destination is free and the origin holds enough fish; a "not enough fish" refusal comes only after the earlier checks passed |
| Ciclos.TransferCheckOrder | Backend/src/controllers/ciclo.ts:113-144 | each of the seven refusals, with its status and message, happens exactly when the checks before it pass and its own fails; the transfer is accepted exactly when all pass |
| Ciclos.Availability | Backend/src/controllers/ciclo.ts:156-163 | the tanks after a transfer: the origin freed when its link empties, the destination taken; the ensures of MoverPeces ties the table to it |
| Ciclos.SameTankRefused | Backend/src/controllers/ciclo.ts:126-128 | origin = destination is refused with 400 before any tank is looked at |
| Ciclos.ForeignOriginCheckedFirst | Backend/src/controllers/ciclo.ts:116-123 | an origin not linked to the cycle gives 400 even when the cycle does not exist |
| Ciclos.BajasKeepSum | Backend/src/controllers/ciclo.ts:56-58 | deaths keep bajas + numero_peces constant |
| Inventario.OrStr | Backend/src/controllers/inventario.ts:44-45 | `x || old`: a non-empty string replaces, anything else keeps the old value |
| Inventario.Coalesce | Backend/src/controllers/inventario.ts:46 | `x ?? old`: any present value replaces, 0 included |
| Inventario.ApplyBody | Backend/src/controllers/inventario.ts:44-47 | the item after `updateInventario`'s assignments; characterised by ApplyBodyFields |
| Inventario.ApplyBodyFields | Backend/src/controllers/inventario.ts:44-47 | nombre, descripcion and unidad change only to non-empty strings; cantidad to any present value; the id is kept |
| Inventario.ZeroQuantityStoredEmptyNameKept | Backend/src/controllers/inventario.ts:44-46 | a quantity of 0 is stored, an empty name is not |
| Inventario.ApplyBodyIdempotent | Backend/src/controllers/inventario.ts:44-47 | the same update twice is the same as once |
| Inventario.GetById | Backend/src/controllers/inventario.ts:26-36 | 404 iff the id is unknown, else the stored item |
| Inventario.UpdateThenGet | Backend/src/controllers/inventario.ts:37-56 | reading an updated item back gives the patched item |
| Inventario.DeleteThenGet | Backend/src/controllers/inventario.ts:57-68 | after a delete the item reads as 404 and every other item as before |
| Inventario.InventoryTable.constructor | Backend/src/controllers/inventario.ts:5-16 | an empty table |
| Inventario.InventoryTable.AddInventario | Backend/src/controllers/inventario.ts:5-16 | one new item with the four given fields under a fresh id, answered with 201 |
| Inventario.InventoryTable.GetInventarioById | Backend/src/controllers/inventario.ts:26-36 | reads only; 404 "Item no encontrado" iff the id is not stored; otherwise 200 with the stored item, which carries the id asked for |
| Inventario.InventoryTable.UpdateInventario | Backend/src/controllers/inventario.ts:37-56 | 404 and no change for an unknown id; otherwise the patched item is stored and returned |
| Inventario.InventoryTable.DeleteInventario | Backend/src/controllers/inventario.ts:57-68 | 404 and no change for an unknown id; otherwise exactly that item is removed |
| Productos.ApplyBody | Backend/src/controllers/producto.ts:33-35 | the product after `updateproductos`'s assignments: `nombre ||`, `precio ??`, `stock ??`; stated by ZeroPriceAndStockStored and ApplyBodyNeutralAndIdempotent |
| Productos.ZeroPriceAndStockStored | Backend/src/controllers/producto.ts:33-35 | price and stock 0 are stored; an empty name keeps the old one |
| Productos.ApplyBodyNeutralAndIdempotent | Backend/src/controllers/producto.ts:33-35 | an empty body changes nothing; the same update twice is the same as once |
| Productos.ProductTable.constructor | Backend/src/controllers/producto.ts:5-14 | an empty table |
| Productos.ProductTable.CreateProducto | Backend/src/controllers/producto.ts:5-14 | all three fields present: the product is stored under a fresh id; any field missing: 401 and nothing stored |
| Productos.ProductTable.UpdateProductos | Backend/src/controllers/producto.ts:26-43 | 404 and no change for an unknown id; otherwise the patched product is stored and returned |
| Productos.ProductTable.DeleteProductos | Backend/src/controllers/producto.ts:44-57 | 404 and no change for an unknown id; otherwise exactly that product is removed |
| Upload.ExtName | Backend/src/middlewares/upload.ts:18 | `path.extname` is empty or a '.' followed by characters that are neither '.' nor '/' |
| Upload.TrimmedEnd | Backend/src/middlewares/upload.ts:18 | trailing '/' are skipped |
| Upload.ComponentStart | Backend/src/middlewares/upload.ts:18 | the last path component starts after the last '/' |
| Upload.LastDot | Backend/src/middlewares/upload.ts:18 | the last '.' of the component, with none after it |
| Upload.ExtNameOfStemAndExtension | Backend/src/middlewares/upload.ts:18 | a name stem + "." + e, with a slash-free stem and an e free of '.' and '/', has extension "." + e |
| Upload.NoDotNoExtension | Backend/src/middlewares/upload.ts:18 | a name without '.' has no extension |
| Upload.LeadingDotOnlyNoExtension | Backend/src/middlewares/upload.ts:18 | a name whose only dot leads it, such as ".png", has no extension |
| Upload.Allowed | Backend/src/middlewares/upload.ts:29-31 | the lower-cased extension contains "jpeg", "jpg" or "png" somewhere, the regular expression being unanchored |
| Upload.FileFilter | Backend/src/middlewares/upload.ts:28-36 | accepted iff the lower-cased extension contains "jpeg", "jpg" or "png"; otherwise rejected with the fixed message |
| Upload.NoExtensionRejected | Backend/src/middlewares/upload.ts:30-34 | a file without an extension is rejected |
| Upload.UpperCasePngAccepted | Backend/src/middlewares/upload.ts:29-31 | a file whose extension is ".PNG", such as "foto.PNG", is accepted |
| Upload.UnanchoredMatch | Backend/src/middlewares/upload.ts:29-31 | a file whose extension is ".pngx" is accepted: the pattern is unanchored |
| Upload.GifRejected | Backend/src/middlewares/upload.ts:29-34 | a file whose extension is ".gif" is rejected |
| Upload.NoImagePattern | Backend/src/middlewares/upload.ts:29-31 | an extension without 'j' or 'p' matches none of the three patterns |
| Upload.UniqueSuffix | Backend/src/middlewares/upload.ts:17 | the suffix contains neither '.' nor '/' |
| Upload.StoredName | Backend/src/middlewares/upload.ts:19 | the stored name is longer than field name and suffix together |
| Upload.StoredNameKeepsExtension | Backend/src/middlewares/upload.ts:15-20 | the stored name has the original's extension, case kept, so the filter's verdict on it is the same |
| AuthClient.TokenOf | PisciApp/src/app/core/services/auth.service.ts:169-174 | localStorage's token when truthy, else sessionStorage's |
| AuthClient.UserOf | PisciApp/src/app/core/services/auth.service.ts:189-196 | the three flags default to false; id, e-mail, role and phone are copied |
| AuthClient.LoadedUser | PisciApp/src/app/core/services/auth.service.ts:176-202 | a user iff there is a token and it decodes; then the decoded user with defaults |
| AuthClient.AuthService.constructor | PisciApp/src/app/core/services/auth.service.ts:176-202 | the service starts from the storages with the user loaded from them |
| AuthClient.AuthService.GetToken | PisciApp/src/app/core/services/auth.service.ts:169-174 | localStorage first, then sessionStorage |
| AuthClient.AuthService.IsLoggedIn | PisciApp/src/app/core/services/auth.service.ts:162-167 | true iff either storage holds a non-empty token |
| AuthClient.AuthService.LoadUserFromToken | PisciApp/src/app/core/services/auth.service.ts:176-202 | the current user is `LoadedUser` of the current token; storages unchanged |
| AuthClient.AuthService.Login | PisciApp/src/app/core/services/auth.service.ts:58-83 | a token is stored only without requires2FA and with a token; rememberMe picks localStorage, else sessionStorage; otherwise nothing changes |
| AuthClient.AuthService.StoreReturnedToken | PisciApp/src/app/core/services/auth.service.ts:86-109 | register and Google login put a returned token in localStorage; sessionStorage never changes |
| AuthClient.AuthService.RefreshAccessToken | PisciApp/src/app/core/services/auth.service.ts:124-144 | the new token replaces sessionStorage's when it holds one, else goes to localStorage |
| AuthClient.AuthService.Logout | PisciApp/src/app/core/services/auth.service.ts:146-160 | both storages and the user are cleared; not logged in afterwards |
| AuthClient.SessionLoginShadowedByRememberedToken | PisciApp/src/app/core/services/auth.service.ts:70-76 | a new session token is shadowed by an older remembered one |
| AuthClient.RememberedLoginIsCurrent | PisciApp/src/app/core/services/auth.service.ts:70-76 | a remembered login's token and user become the current ones |
| AuthClient.MissingFieldsDefault | PisciApp/src/app/core/services/auth.service.ts:189-196 | missing optional fields give false flags and null phone, theme and language |
| AuthInterceptorModel.IsAuthRoute | PisciApp/src/app/core/interceptors/auth.interceptor.ts:35-40 | the URL contains one of the five authentication paths anywhere |
| AuthInterceptorModel.AttachedHeader | PisciApp/src/app/core/interceptors/auth.interceptor.ts:42-47 | a header iff a token exists and the URL is not an auth route; it is "Bearer " + token |
| AuthInterceptorModel.LoginRouteGetsNoHeader | PisciApp/src/app/core/interceptors/auth.interceptor.ts:35-47 | a URL ending in "/auth/login" gets no header |
| AuthInterceptorModel.IsTokenExpired | PisciApp/src/app/core/interceptors/auth.interceptor.ts:90-100 | not expired iff the token decodes with a non-zero exp and exp * 1000 is not before the start of the current second |
| AuthInterceptorModel.ExpiryBoundary | PisciApp/src/app/core/interceptors/auth.interceptor.ts:90-100 | exp equal to the current second is not expired; one second earlier is |
| AuthInterceptorModel.IsLoggedInWithValidToken | PisciApp/src/app/core/interceptors/auth.interceptor.ts:103-107 | true iff a token exists and has not expired |
| AuthInterceptorModel.AuthInterceptor.constructor | PisciApp/src/app/core/interceptors/auth.interceptor.ts:51-86 | not refreshing, no refreshed token |
| AuthInterceptorModel.AuthInterceptor.Outgoing | PisciApp/src/app/core/interceptors/auth.interceptor.ts:29-47 | a header iff the service is logged in and the URL is not an authentication route; the header is "Bearer " followed by the localStorage token when that is non-empty, else the sessionStorage one |
| AuthInterceptorModel.AuthInterceptor.OnError | PisciApp/src/app/core/interceptors/auth.interceptor.ts:51-86 | a 401 off the auth routes with no refresh running starts one; a 401 while one runs waits; anything else is rethrown unchanged |
| AuthInterceptorModel.AuthInterceptor.OnRefreshSuccess | PisciApp/src/app/core/interceptors/auth.interceptor.ts:58-66 | the flag is cleared, the token published and the request retried with it |
| AuthInterceptorModel.AuthInterceptor.OnRefreshFailure | PisciApp/src/app/core/interceptors/auth.interceptor.ts:67-70 | the flag is cleared and the user logged out |
| AuthInterceptorModel.WaitingRetryHeader | PisciApp/src/app/core/interceptors/auth.interceptor.ts:72-84 | a waiting request is retried with "Bearer " + the published token |
| ErrorMessages.Get | PisciApp/src/app/core/services/error.service.ts:24-54 | reading a property of a non-object gives undefined |
| ErrorMessages.StatusMessage | PisciApp/src/app/core/services/error.service.ts:57-78 | the status message is never empty |
| ErrorMessages.GetErrorMessage | PisciApp/src/app/core/services/error.service.ts:14-94 | a non-empty string for every error except when the validation-errors case supplies the value; which source wins is stated step by step by ErrorFieldWins, MessageFieldSecond, StringBodyUntrimmed, MsgFieldFourth, DetailFieldFifth, FirstValidationError, StatusFallback and OtherErrorPrecedence |
| ErrorMessages.HandleError | PisciApp/src/app/core/services/error.service.ts:96-100 | emits exactly `{ message }` with `getErrorMessage`'s result |
| ErrorMessages.ErrorFieldWins | PisciApp/src/app/core/services/error.service.ts:24-26 | a non-empty string `error` wins over every other field |
| ErrorMessages.MessageFieldSecond | PisciApp/src/app/core/services/error.service.ts:28-31 | for every body without a non-empty string `error`, a non-empty string `message` is the result |
| ErrorMessages.StringBodyUntrimmed | PisciApp/src/app/core/services/error.service.ts:34-36 | a non-blank string body is returned untrimmed |
| ErrorMessages.MsgFieldFourth | PisciApp/src/app/core/services/error.service.ts:38-41 | for every body without usable `error` or `message`, a non-empty string `msg` is the result; only an object has one |
| ErrorMessages.DetailFieldFifth | PisciApp/src/app/core/services/error.service.ts:43-46 | for every body without usable `error`, `message` or `msg`, a non-empty string `detail` is the result |
| ErrorMessages.BlankBodyUsesStatus | PisciApp/src/app/core/services/error.service.ts:34-78 | a blank string body falls through to the status table |
| ErrorMessages.FirstValidationError | PisciApp/src/app/core/services/error.service.ts:48-54 | for every body without usable `error`, `message`, `msg` or `detail`, an `errors` object or array whose first value is a non-empty array gives that array's first entry |
| ErrorMessages.StatusFallback | PisciApp/src/app/core/services/error.service.ts:56-78 | when no field and no non-blank string body applies, the message is the status table's |
| ErrorMessages.OtherErrorPrecedence | PisciApp/src/app/core/services/error.service.ts:81-93 | an error that is not an HTTP error gives its non-empty string `message`, else itself when a non-blank string, else "Ocurrió un error inesperado. Intenta nuevamente." |
| ErrorMessages.UnlistedMessage | PisciApp/src/app/core/services/error.service.ts:76-77 | an unlisted status gives "Error del servidor (", its number, "): " and the status text or "Error desconocido" |
| ErrorMessages.UnlistedStatusIdentified | PisciApp/src/app/core/services/error.service.ts:76-77 | the default message names its status: two unlisted statuses never share a message, whatever their status texts |
| RegisterForm.DigitRun | PisciApp/src/app/features/auth/pages/register/register.component.ts:39 | the run of digits from i is all digits and stops at a non-digit or the end |
| RegisterForm.DigitRunToEnd | PisciApp/src/app/features/auth/pages/register/register.component.ts:39 | over digits reaching the end, the run reaches the end |
| RegisterForm.MatchesPhonePattern | PisciApp/src/app/features/auth/pages/register/register.component.ts:39 | the pattern `^\+?\d{7,15}$` as a scan: an optional '+', then a maximal digit run of 7 to 15 reaching the end; characterised by PhonePatternIff |
| RegisterForm.PhonePatternIff | PisciApp/src/app/features/auth/pages/register/register.component.ts:39 | the phone pattern accepts exactly an optional '+' followed by 7 to 15 digits and nothing else |
| RegisterForm.PhoneWithLetterRejected | PisciApp/src/app/features/auth/pages/register/register.component.ts:39 | a letter anywhere makes the phone invalid |
| RegisterForm.PasswordsMatchValidator | PisciApp/src/app/features/auth/pages/register/register.component.ts:57-63 | no error iff the two passwords are equal, else `passwordsMismatch` |
| RegisterForm.ValidFormMeetsRules | PisciApp/src/app/features/auth/pages/register/register.component.ts:30-53 | the form is valid iff the required fields are non-empty, the e-mail valid, the phone a phone number, the password strong by the backend's rule, both passwords equal and terms accepted |
| RegisterForm.Field | Backend/src/controllers/usuario.ts:19 | a property is found iff the body has one of that name |
| RegisterForm.UserDataAsWritten | PisciApp/src/app/features/auth/pages/register/register.component.ts:71 | the payload has the six fields and neither confirmarContrasena nor terms |
| RegisterForm.UserData | PisciApp/src/app/features/auth/pages/register/register.component.ts:71 | the payload has the six fields and neither confirmarContrasena nor terms |
| RegisterForm.Submit | PisciApp/src/app/features/auth/pages/register/register.component.ts:65-76 | a request is sent iff the form is valid, and the backend reads the form's name, e-mail and password from it |
| RegisterForm.BackendBody | Backend/src/controllers/usuario.ts:19 | the backend reads nombre, correo and `contraseña` from the posted body, each missing when the key is absent |
| RegisterForm.UserDataRead | Backend/src/controllers/usuario.ts:19 | the backend finds name, e-mail and password in the payload |
| RegisterForm.RegistrationAsWrittenRefused | PisciApp/src/app/features/auth/pages/register/register.component.ts:71 | as written, every valid form is refused by the backend with 400 "Faltan datos obligatorios" |
| RegisterForm.RegistrationAccepted | Backend/src/controllers/usuario.ts:19-40 | with the key the backend reads, a valid form passes every registration check except a registered e-mail |
| RegisterForm.RegisterErrorMessageAsWritten | PisciApp/src/app/features/auth/pages/register/register.component.ts:85 | the message shown is truthy: the nested one or the fallback |
| RegisterForm.RegisterErrorAlwaysFallback | PisciApp/src/app/features/auth/pages/register/register.component.ts:85 | as written, every error from `handleError` shows "No se pudo registrar" |
| RegisterForm.RegisterErrorMessage | PisciApp/src/app/features/auth/pages/register/register.component.ts:85 | the message shown is truthy: `err.message` or the fallback |
| RegisterForm.RegisterErrorShowsHandledMessage | PisciApp/src/app/core/services/error.service.ts:96-100 | reading `message` shows the message `getErrorMessage` chose |
| Navbar.GetInitials | PisciApp/src/app/shared/components/navbar/navbar.component.ts:32-39 | at most 2 characters; an empty name gives "U" |
| Navbar.SingleWordInitial | PisciApp/src/app/shared/components/navbar/navbar.component.ts:34-35 | one word, whatever whitespace surrounds it, gives its first character upper-cased |
| Navbar.TwoWordInitials | PisciApp/src/app/shared/components/navbar/navbar.component.ts:36-38 | two words give the first characters of both, upper-cased |
| Navbar.TwoWordsTrimmed | PisciApp/src/app/shared/components/navbar/navbar.component.ts:34 | two words joined by a space trim to themselves |
| Navbar.TwoWordsSplit | PisciApp/src/app/shared/components/navbar/navbar.component.ts:34 | two words joined by a space split into the two words |
| Navbar.BlankNameNoInitials | PisciApp/src/app/shared/components/navbar/navbar.component.ts:33-35 | a name of only whitespace gives no initials at all |
| Navbar.DisplayedInitials | PisciApp/src/app/shared/components/navbar/navbar.component.ts:24 | at most 2 characters; a non-empty name's initials are its own |
| Navbar.MissingNameShowsU | PisciApp/src/app/shared/components/navbar/navbar.component.ts:24 | a missing or empty name shows "U", the initial of "Usuario" |
## Left out

- `solicitarRecuperacion` (Backend/src/controllers/usuario.ts:255-275): its only effects are a token signature and an e-mail, both outside the model.
- `getInventario` and `getproductos`: whole-table reads with no logic beyond returning the rows.
- Signatures, argon2, bcrypt, TOTP, Google's ID-token check and `crypto.randomBytes` are oracles. They are parameters or uninterpreted functions, and only their stated properties are used.
- E-mail delivery, the cron schedule and `Date.now()` are left out. The clock is an instant passed in, and the jobs call a mailer that records recipients.
- FLOAT columns (costs, measurements, volumes) are integers, because the handlers only add and store them.
- Daylight-saving changes are left out: a day is 86 400 000 ms.
- The Sequelize models are left out. The model follows the columns the controllers use. `models/inventario.ts` declares other columns than its controller, and the Tanque model lacks the fields `tanque.ts` writes. Foreign keys are not modelled, neither cascades nor failed inserts: a create that names an unknown row succeeds in the model. For example `CrearCiclo` with an unknown `usuario_id` or tank id answers 201, where a database that enforces the keys would refuse the insert and the handler would answer 500.
- The route wiring is left out. Backend/src/routes/auth.ts imports `loginHandler` and `refreshTokenHandler`, which `usuario.ts` does not export. The model names the handlers as `usuario.ts` declares them.
- Concurrency is left out: each handler runs alone. The interceptor's waiting on a `BehaviorSubject` is reduced to a `WaitForRefresh` action that is retried with the published token.
- RxJS and Angular plumbing (observables, `loading` flags, router navigation, toasts) is left out.
- JSON `null` and `undefined` are one "absent" value in the backend bodies. The error service keeps them apart.
- Strings.ToUpper: JavaScript's `toUpperCase` maps 'ß' to the two characters "SS" and upper-cases letters outside Latin-1 (Greek, Cyrillic and others); the model maps one character to one and keeps those letters unchanged.
- Navbar.GetInitials: case mapping is ASCII and Latin-1 only, one character for one character. JavaScript's `toUpperCase` maps 'ß' to "SS", which could give three characters.
- The login form and `AuthService.login` (PisciApp/src/app/core/services/auth.service.ts:58-66) also send the password under `contrasena`, while `loginUsuario` reads `contraseña`. The login component is not part of this model, and `AuthService.Login` starts from the server's reply.
- Uploads: the 2 MB size limit (Backend/src/middlewares/upload.ts:26) is enforced by multer on the byte stream, which is not modelled. The disk writes are left out too.

## Findings

| source | as written | input that shows it | evidently intended | confidence | as-written member | corrected member |
|---|---|---|---|---|---|---|
| Backend/src/controllers/ciclo.ts:38-40 | `cerrarCiclo` sets `fecha_fin` on the row and answers 200 without calling `save()` | close an open cycle twice: both calls answer 200 and the cycle stays open | the closing date is saved, so the second close answers 400 "el ciclo fue cerrado en " followed by the first closing date | high (not executed) | Ciclos.CycleBook.CerrarDosVeces | Ciclos.CycleBook.CerrarDosVecesPersisted |
| PisciApp/src/app/features/auth/pages/register/register.component.ts:71 | the form posts the password under the key `contrasena`, and `usuario.ts:19` reads `contraseña` | any valid form: the backend answers 400 "Faltan datos obligatorios" | the payload uses the key the backend reads | medium (not executed) | RegisterForm.RegistrationAsWrittenRefused | RegisterForm.RegistrationAccepted |
| PisciApp/src/app/features/auth/pages/register/register.component.ts:85 | the form shows `err.error?.message`, but `handleError` emits `{ message }` | a registration refused with 400 "El correo ya está registrado" shows "No se pudo registrar" | the form shows `err.message` | high (not executed) | RegisterForm.RegisterErrorAlwaysFallback | RegisterForm.RegisterErrorShowsHandledMessage |
| Backend/src/controllers/ciclo.ts:56 | `actualizarBajas` calls `Bajas.create({ ciclo_id, cantidad, id_tanque })`, but the `bajas` model (Backend/src/models/ciclo.ts:145) names the column `tanque_id` and declares it NOT NULL, so the insert fails validation | `{ ciclo_id: 1, cantidad: 5, id_tanque: 2 }` with cycle 1 stored: the handler answers 500 "Error interno del servidor", and no death is recorded | the tank is passed as `tanque_id`, so the death is recorded and the cycle updated | high (not executed) | Ciclos.CycleBook.ActualizarBajas | Ciclos.CycleBook.ActualizarBajasWithTank |
