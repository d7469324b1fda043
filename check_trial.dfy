/**
 * The billing guards of Backend/src/middlewares/checkTrial.ts. Each reads the
 * user named by the verified token's `id` claim and decides, against the
 * current time, whether the request goes on. They write nothing. Dates are
 * compared strictly, so a date equal to now has not passed.
 */
module CheckTrial {
  import opened Wrappers
  import opened Usuarios
  import opened VerifyToken

  const MsgTrialOver: string := "Tu periodo de prueba terminó, debes suscribirte"
  const MsgSubscriptionInactive: string := "Tu suscripción no está activa"
  const MsgGraceOver: string := "Tu periodo de gracia terminó, paga para reactivar tu cuenta"
  const MsgInGrace: string := "Tu pago falló, estás en periodo de gracia. Actualiza tu tarjeta."

  /** An optional date that is set and strictly before now. */
  predicate Before(date: Option<int>, nowMs: int) {
    date.Some? && date.value < nowMs
  }

  /** `verificarPeriodoPrueba`: the optional chain lets an unknown user through. */
  function PeriodoPrueba(rows: seq<Usuario>, userId: Option<int>, nowMs: int): (d: Decision)
    ensures d == Next || d == Deny(403, MsgTrialOver)
  {
    var i := FindById(rows, userId);
    if i.Some? && rows[i.value].periodoPrueba && Before(rows[i.value].fechaCobro, nowMs) then Deny(403, MsgTrialOver)
    else Next
  }

  /** `verificarSuscripcionActiva`. */
  function SuscripcionActiva(rows: seq<Usuario>, userId: Option<int>, nowMs: int): (d: Decision)
    ensures d == Next || d == Deny(404, MsgUserNotFound) || d == Deny(403, MsgSubscriptionInactive)
  {
    var i := FindById(rows, userId);
    if i.None? then Deny(404, MsgUserNotFound)
    else if rows[i.value].fechaCobro.None? || rows[i.value].fechaCobro.value < nowMs then Deny(403, MsgSubscriptionInactive)
    else Next
  }

  /** `verificarPeriodoGracia`: both grace branches refuse; only the message tells them apart. */
  function PeriodoGracia(rows: seq<Usuario>, userId: Option<int>, nowMs: int): (d: Decision)
    ensures d == Next || d == Deny(404, MsgUserNotFound) || d == Deny(403, MsgGraceOver) || d == Deny(403, MsgInGrace)
  {
    var i := FindById(rows, userId);
    if i.None? then Deny(404, MsgUserNotFound)
    else if rows[i.value].periodoGracia then
      if Before(rows[i.value].periodoGraciaExpira, nowMs) then Deny(403, MsgGraceOver) else Deny(403, MsgInGrace)
    else Next
  }

  /** The trial guard refuses exactly a known user on trial whose charge date has passed. */
  lemma PruebaRefusesIff(rows: seq<Usuario>, userId: Option<int>, nowMs: int)
    ensures PeriodoPrueba(rows, userId, nowMs).Deny? <==>
      exists i :: 0 <= i < |rows| && FindById(rows, userId) == Some(i)
                  && rows[i].periodoPrueba && rows[i].fechaCobro.Some? && rows[i].fechaCobro.value < nowMs
  {
    var i := FindById(rows, userId);
    if i.Some? {
      assert 0 <= i.value < |rows| && FindById(rows, userId) == Some(i.value);
    }
  }

  /** An id that names no user passes the trial guard (no 404 there). */
  lemma PruebaLetsUnknownUserThrough(rows: seq<Usuario>, userId: int, nowMs: int)
    requires forall j :: 0 <= j < |rows| ==> rows[j].id != userId
    ensures PeriodoPrueba(rows, Some(userId), nowMs) == Next
  {
  }

  /** The subscription guard lets a known user through iff a charge date is set and has not passed. */
  lemma SuscripcionPassesIff(rows: seq<Usuario>, userId: Option<int>, nowMs: int)
    ensures SuscripcionActiva(rows, userId, nowMs) == Next <==>
      (FindById(rows, userId).Some? && rows[FindById(rows, userId).value].fechaCobro.Some?
       && !(rows[FindById(rows, userId).value].fechaCobro.value < nowMs))
  {
  }

  /** Whoever passes the subscription guard passes the trial guard too. */
  lemma SuscripcionImpliesPrueba(rows: seq<Usuario>, userId: Option<int>, nowMs: int)
    requires SuscripcionActiva(rows, userId, nowMs) == Next
    ensures PeriodoPrueba(rows, userId, nowMs) == Next
  {
  }

  /** A charge date equal to now has not passed for either guard. */
  lemma ChargeDateAtNowNotPassed(rows: seq<Usuario>, userId: Option<int>, nowMs: int)
    requires FindById(rows, userId).Some? && rows[FindById(rows, userId).value].fechaCobro == Some(nowMs)
    ensures PeriodoPrueba(rows, userId, nowMs) == Next
    ensures SuscripcionActiva(rows, userId, nowMs) == Next
  {
  }

  /** The grace guard passes exactly a known user not in grace; a user in grace is refused, expired or not. */
  lemma GraciaPassesIff(rows: seq<Usuario>, userId: Option<int>, nowMs: int)
    ensures PeriodoGracia(rows, userId, nowMs) == Next <==>
      (FindById(rows, userId).Some? && !rows[FindById(rows, userId).value].periodoGracia)
    ensures FindById(rows, userId).Some? && rows[FindById(rows, userId).value].periodoGracia ==>
      PeriodoGracia(rows, userId, nowMs).Deny? && PeriodoGracia(rows, userId, nowMs).status == 403
  {
  }
}
