/**
 * The bodies of the three maintenance jobs of Backend/src/services/cronJobs.ts
 * (not their schedule): who gets the payment-problem reminder, who gets the
 * "trial ends in 3 days" reminder, and the hourly bulk update that marks
 * unverified users whose code has expired as deleted.
 */
module CronJobs {
  import opened Wrappers
  import opened Crypto
  import opened Usuarios

  // ---------------------------------------------------------------- grace reminders

  /** The query of the first job: in grace, with a grace end strictly after now. */
  predicate GraceDue(u: Usuario, nowMs: int) {
    u.periodoGracia && u.periodoGraciaExpira.Some? && u.periodoGraciaExpira.value > nowMs
  }

  /** The users the first job mails, in table order. */
  function GraceRecipients(rows: seq<Usuario>, nowMs: int): seq<Usuario> {
    if rows == [] then []
    else GraceRecipients(rows[..|rows| - 1], nowMs) + (if GraceDue(rows[|rows| - 1], nowMs) then [rows[|rows| - 1]] else [])
  }

  /** Exactly the users in grace whose grace has not ended are mailed. */
  lemma {:induction false} GraceRecipientsExactly(rows: seq<Usuario>, nowMs: int, u: Usuario)
    ensures u in GraceRecipients(rows, nowMs) <==> u in rows && GraceDue(u, nowMs)
  {
    if rows != [] {
      var init := rows[..|rows| - 1];
      GraceRecipientsExactly(init, nowMs, u);
      assert rows == init + [rows[|rows| - 1]];
    }
  }

  /** The first job's loop: one reminder per selected user. */
  method GraceReminders(rows: seq<Usuario>, nowMs: int) returns (mailed: seq<Usuario>)
    ensures mailed == GraceRecipients(rows, nowMs)
  {
    mailed := [];
    for i := 0 to |rows|
      invariant mailed == GraceRecipients(rows[..i], nowMs)
    {
      assert rows[..i + 1][..i] == rows[..i];
      if GraceDue(rows[i], nowMs) {
        mailed := mailed + [rows[i]];
      }
    }
    assert rows[..|rows|] == rows;
  }

  // ---------------------------------------------------------------- trial reminders

  /** `Math.ceil(a / b)` for a positive divisor, on integers. */
  function CeilDiv(a: int, b: int): (q: int)
    requires b > 0
    ensures (q - 1) * b < a <= q * b
  {
    -((-a) / b)
  }

  /** `Math.ceil((fecha_cobro - now) / 86 400 000)`: the whole days left, rounded up. */
  function DaysLeft(fechaCobro: int, nowMs: int): int {
    CeilDiv(fechaCobro - nowMs, DayMs)
  }

  /** The second job's test for one user on trial. */
  predicate TrialDue(u: Usuario, nowMs: int) {
    u.periodoPrueba && u.fechaCobro.Some? && DaysLeft(u.fechaCobro.value, nowMs) == 3
  }

  /** Three days left, rounded up, means the charge falls more than two and at most three days ahead. */
  lemma ThreeDaysLeftIff(fechaCobro: int, nowMs: int)
    ensures DaysLeft(fechaCobro, nowMs) == 3 <==> 2 * DayMs < fechaCobro - nowMs <= 3 * DayMs
  {
    var a := fechaCobro - nowMs;
    var q := DaysLeft(fechaCobro, nowMs);
    assert (q - 1) * DayMs < a <= q * DayMs;
  }

  /** The users the second job mails, in table order. */
  function TrialRecipients(rows: seq<Usuario>, nowMs: int): seq<Usuario> {
    if rows == [] then []
    else TrialRecipients(rows[..|rows| - 1], nowMs) + (if TrialDue(rows[|rows| - 1], nowMs) then [rows[|rows| - 1]] else [])
  }

  /** Exactly the users on trial with a charge date more than two and at most three days ahead are mailed. */
  lemma {:induction false} TrialRecipientsExactly(rows: seq<Usuario>, nowMs: int, u: Usuario)
    ensures u in TrialRecipients(rows, nowMs) <==>
      u in rows && u.periodoPrueba && u.fechaCobro.Some? && 2 * DayMs < u.fechaCobro.value - nowMs <= 3 * DayMs
  {
    if u.fechaCobro.Some? {
      ThreeDaysLeftIff(u.fechaCobro.value, nowMs);
    }
    if rows != [] {
      var init := rows[..|rows| - 1];
      TrialRecipientsExactly(init, nowMs, u);
      assert rows == init + [rows[|rows| - 1]];
    }
  }

  /** The second job's loop over the users on trial: mail those with exactly three days left. */
  method TrialReminders(rows: seq<Usuario>, nowMs: int) returns (mailed: seq<Usuario>)
    ensures mailed == TrialRecipients(rows, nowMs)
  {
    mailed := [];
    for i := 0 to |rows|
      invariant mailed == TrialRecipients(rows[..i], nowMs)
    {
      assert rows[..i + 1][..i] == rows[..i];
      var usuario := rows[i];
      if usuario.periodoPrueba && usuario.fechaCobro.Some? {
        var diasRestantes := CeilDiv(usuario.fechaCobro.value - nowMs, DayMs);
        if diasRestantes == 3 {
          mailed := mailed + [usuario];
        }
      }
    }
    assert rows[..|rows|] == rows;
  }

  // ---------------------------------------------------------------- cleanup

  /** The `where` of the bulk update: unverified, not yet deleted, code expired strictly before now. */
  predicate Stale(u: Usuario, nowMs: int) {
    !u.isVerified && !u.eliminado && u.verificationExpiresAt.Some? && u.verificationExpiresAt.value < nowMs
  }

  /** The table after `Usuario.update({ eliminado: true }, { where })`. */
  function Cleaned(rows: seq<Usuario>, nowMs: int): (r: seq<Usuario>)
    ensures |r| == |rows|
  {
    seq(|rows|, i requires 0 <= i < |rows| => if Stale(rows[i], nowMs) then rows[i].(eliminado := true) else rows[i])
  }

  /** The number of rows the `where` matches. */
  function StaleCount(rows: seq<Usuario>, nowMs: int): nat {
    if rows == [] then 0
    else StaleCount(rows[..|rows| - 1], nowMs) + (if Stale(rows[|rows| - 1], nowMs) then 1 else 0)
  }

  /** The number of positions at which two tables of one length hold different rows. */
  function Differences(a: seq<Usuario>, b: seq<Usuario>): nat
    requires |a| == |b|
  {
    if a == [] then 0
    else Differences(a[..|a| - 1], b[..|b| - 1]) + (if a[|a| - 1] != b[|b| - 1] then 1 else 0)
  }

  /** The cleanup marks exactly the stale rows, sets only `eliminado`, and touches every other row not at all. */
  lemma CleanedMarksExactlyStale(rows: seq<Usuario>, nowMs: int, i: nat)
    requires i < |rows|
    ensures Stale(rows[i], nowMs) ==> Cleaned(rows, nowMs)[i] == rows[i].(eliminado := true)
    ensures !Stale(rows[i], nowMs) ==> Cleaned(rows, nowMs)[i] == rows[i]
    ensures Cleaned(rows, nowMs)[i].eliminado <==> rows[i].eliminado || Stale(rows[i], nowMs)
  {
  }

  /** Cleaning a prefix is the prefix of the cleaned table. */
  lemma CleanedPrefix(rows: seq<Usuario>, nowMs: int, k: nat)
    requires k <= |rows|
    ensures Cleaned(rows[..k], nowMs) == Cleaned(rows, nowMs)[..k]
  {
  }

  /** The count the update reports is the number of rows it changed. */
  lemma {:induction false} CountIsRowsChanged(rows: seq<Usuario>, nowMs: int)
    ensures StaleCount(rows, nowMs) == Differences(rows, Cleaned(rows, nowMs))
  {
    if rows != [] {
      var n := |rows| - 1;
      CleanedPrefix(rows, nowMs, n);
      CountIsRowsChanged(rows[..n], nowMs);
      var c := Cleaned(rows, nowMs);
      assert c[..|c| - 1] == Cleaned(rows[..n], nowMs);
      assert Stale(rows[n], nowMs) <==> c[n] != rows[n] by {
        if Stale(rows[n], nowMs) {
          assert c[n].eliminado && !rows[n].eliminado;
        }
      }
    }
  }

  /** A table with no stale row has a count of 0. */
  lemma {:induction false} NoStaleCountsZero(rows: seq<Usuario>, nowMs: int)
    requires forall i :: 0 <= i < |rows| ==> !Stale(rows[i], nowMs)
    ensures StaleCount(rows, nowMs) == 0
  {
    if rows != [] {
      NoStaleCountsZero(rows[..|rows| - 1], nowMs);
    }
  }

  /** A second run at the same instant changes nothing and reports 0. */
  lemma CleanupTwice(rows: seq<Usuario>, nowMs: int)
    ensures Cleaned(Cleaned(rows, nowMs), nowMs) == Cleaned(rows, nowMs)
    ensures StaleCount(Cleaned(rows, nowMs), nowMs) == 0
  {
    var c := Cleaned(rows, nowMs);
    assert forall i :: 0 <= i < |c| ==> !Stale(c[i], nowMs);
    NoStaleCountsZero(c, nowMs);
  }

  /** The bulk update on the user table; `cantidad` is the affected-row count it returns. */
  method Cleanup(t: UserTable, nowMs: int) returns (cantidad: nat)
    requires t.Valid()
    modifies t
    ensures t.Valid() && t.nextId == old(t.nextId)
    ensures t.rows == Cleaned(old(t.rows), nowMs)
    ensures cantidad == StaleCount(old(t.rows), nowMs)
  {
    cantidad := StaleCount(t.rows, nowMs);
    t.rows := Cleaned(t.rows, nowMs);
  }
}
