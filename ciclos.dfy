/**
 * The production-cycle handlers of Backend/src/controllers/ciclo.ts.
 *
 * A cycle (`Ciclo`) holds a fish count, accumulated costs and deaths. Its fish
 * live in tanks through `CicloTanque` links keyed by (ciclo_id, tanque_id),
 * each with its own fish count. Deaths, feed, chemicals and tank moves are
 * logged in their own tables. Transfers move fish between two links of a
 * cycle without changing the cycle's total and flip tank availability.
 *
 * The cost and count columns are modelled as integers; request fields that
 * may be missing are `Option`s and JavaScript's `!x` is spelled out.
 */
module Ciclos {
  import opened Wrappers
  import opened Tanques

  datatype Ciclo = Ciclo(
    id: nat, usuarioId: int, numeroPeces: int, costos: int,
    bajas: Option<int>, fechaInicio: int, fechaFin: Option<int>)

  /** A `CicloTanque` row: the fish of cycle `cicloId` kept in tank `tanqueId`. */
  datatype Link = Link(cicloId: nat, tanqueId: int, numeroPeces: int)

  datatype Baja = Baja(cicloId: nat, cantidad: int, tanqueId: int)
  /** An `Alimento` or `Quimico` row. */
  datatype Insumo = Insumo(cicloId: nat, cantidad: int, costo: int, nombre: string, descripcion: string)
  datatype Movimiento = Movimiento(cicloId: nat, origen: int, destino: int, cantidad: int)

  /** `tanques` as sent: one id, or an array of ids. */
  datatype TanquesInput = One(id: int) | Many(ids: seq<int>)

  datatype CycleReply =
    | Fail(status: nat, error: string)
    | Done(status: nat, ciclo: Ciclo)
    /** 400 "el ciclo fue cerrado en <fecha_fin>". */
    | AlreadyClosed(fechaFin: int)

  const MsgCamposRequeridos: string := "Todos los campos son requeridos."
  const MsgCamposObligatorios: string := "Todos los campos son obligatorios"
  const MsgInterno: string := "Error interno del servidor."
  const MsgInternoSinPunto: string := "Error interno del servidor"
  const MsgCicloYFecha: string := "ciclo y fecha son requeridos"
  const MsgCicloNoEncotrado: string := "Ciclo no encotrado"
  const MsgCicloNoEncontrado: string := "Ciclo no encontrado."
  const MsgOrigenAjeno: string := "El tanque de origen no pertenece al ciclo."
  const MsgMismoTanque: string := "El tanque de origen y destino no pueden ser el mismo."
  const MsgTanqueNoEncontrado: string := "Tanque origen o destino no encontrado."
  const MsgDestinoOcupado: string := "Tanque destino no esta disponible"
  const MsgSinPeces: string := "No hay suficientes peces en el tanque de origen."

  /** `Array.isArray(tanques) ? tanques : [tanques]`. */
  function AsArray(t: TanquesInput): (ids: seq<int>)
    ensures t.One? ==> ids == [t.id]
  {
    match t
    case One(id) => [id]
    case Many(ids) => ids
  }

  /** `!tanques`: an array, even an empty one, is truthy; a single id is falsy when 0. */
  predicate TanquesTruthy(t: Option<TanquesInput>) {
    t.Some? && (t.value.Many? || t.value.id != 0)
  }

  // ---------------------------------------------------------------- links

  /** The composite primary key of a link. */
  function Key(l: Link): (nat, int) {
    (l.cicloId, l.tanqueId)
  }

  /** At most one link per (ciclo_id, tanque_id). */
  ghost predicate UniqueKeys(links: seq<Link>) {
    forall a, b :: 0 <= a < b < |links| ==> Key(links[a]) != Key(links[b])
  }

  /** Every link names a cycle of `ids`. */
  ghost predicate CyclesIn(links: seq<Link>, ids: set<nat>) {
    forall k :: 0 <= k < |links| ==> links[k].cicloId in ids
  }

  /** The index of the link (c, t). */
  function FindLink(links: seq<Link>, c: nat, t: int): (r: Option<nat>)
    ensures r.Some? ==> r.value < |links| && Key(links[r.value]) == (c, t)
    ensures r.None? <==> forall k :: 0 <= k < |links| ==> Key(links[k]) != (c, t)
  {
    if links == [] then None
    else if Key(links[0]) == (c, t) then Some(0)
    else
      var r := FindLink(links[1..], c, t);
      if r.Some? then Some(r.value + 1) else None
  }

  /** With unique keys, the link found is the only one with that key. */
  lemma {:induction false} FindLinkUnique(links: seq<Link>, k: nat)
    requires UniqueKeys(links) && k < |links|
    ensures FindLink(links, links[k].cicloId, links[k].tanqueId) == Some(k)
  {
    var r := FindLink(links, links[k].cicloId, links[k].tanqueId);
    assert !(r.value < k) && !(k < r.value) by {
      assert Key(links[k]) == Key(links[r.value]);
    }
  }

  /** Appending a link whose key is absent keeps keys unique. */
  lemma {:induction false} AppendKeepsKeys(links: seq<Link>, l: Link)
    requires UniqueKeys(links) && FindLink(links, l.cicloId, l.tanqueId).None?
    ensures UniqueKeys(links + [l])
  {
    var r := links + [l];
    assert forall k :: 0 <= k < |links| ==> r[k] == links[k];
  }

  /** Link `i` with its fish count set to `n`: an `update` of `numero_peces`. */
  function SetCount(links: seq<Link>, i: nat, n: int): (r: seq<Link>)
    requires i < |links|
    ensures |r| == |links| && r[i] == links[i].(numeroPeces := n)
    ensures forall k :: 0 <= k < |links| && k != i ==> r[k] == links[k]
  {
    links[i := links[i].(numeroPeces := n)]
  }

  /** Setting a count keeps every key where it was. */
  lemma {:induction false} SetCountKeys(links: seq<Link>, i: nat, n: int, c: nat, t: int)
    requires UniqueKeys(links) && i < |links|
    ensures UniqueKeys(SetCount(links, i, n))
    ensures FindLink(SetCount(links, i, n), c, t) == FindLink(links, c, t)
  {
    var r := SetCount(links, i, n);
    assert forall k :: 0 <= k < |links| ==> Key(r[k]) == Key(links[k]);
    var f := FindLink(links, c, t);
    if f.Some? {
      FindLinkUnique(r, f.value);
    }
  }

  /** `cantidad` fish added to the link (c, d), created when it is missing. */
  function AddFish(links: seq<Link>, c: nat, d: int, n: int): (r: seq<Link>)
    ensures |links| <= |r|
    ensures forall k :: 0 <= k < |links| && Key(links[k]) != (c, d) ==> r[k] == links[k]
  {
    var j := FindLink(links, c, d);
    if j.Some? then SetCount(links, j.value, links[j.value].numeroPeces + n) else links + [Link(c, d, n)]
  }

  /** After `AddFish` the link (c, d) holds `n` more fish; every other link is where it was. */
  lemma {:induction false} AddFishSpec(links: seq<Link>, c: nat, d: int, n: int)
    requires UniqueKeys(links)
    ensures var r := AddFish(links, c, d, n);
      && UniqueKeys(r)
      && FindLink(r, c, d).Some?
      && r[FindLink(r, c, d).value].numeroPeces ==
           (if FindLink(links, c, d).Some? then links[FindLink(links, c, d).value].numeroPeces else 0) + n
  {
    var j := FindLink(links, c, d);
    var r := AddFish(links, c, d, n);
    if j.Some? {
      SetCountKeys(links, j.value, links[j.value].numeroPeces + n, c, d);
    } else {
      assert forall k :: 0 <= k < |links| ==> r[k] == links[k];
      FindLinkUnique(r, |links|);
    }
  }

  /** The link at `i` deleted: a `destroy` of that row. */
  function RemoveAt(links: seq<Link>, i: nat): (r: seq<Link>)
    requires i < |links|
    ensures |r| == |links| - 1
    ensures forall k :: 0 <= k < i ==> r[k] == links[k]
    ensures forall k :: i <= k < |r| ==> r[k] == links[k + 1]
  {
    links[..i] + links[i + 1..]
  }

  /** Removing a link drops its key and keeps every other link findable. */
  lemma {:induction false} RemoveAtSpec(links: seq<Link>, i: nat, c: nat, t: int)
    requires UniqueKeys(links) && i < |links|
    ensures UniqueKeys(RemoveAt(links, i))
    ensures FindLink(RemoveAt(links, i), links[i].cicloId, links[i].tanqueId).None?
    ensures (c, t) != Key(links[i]) && FindLink(links, c, t).Some? ==>
      FindLink(RemoveAt(links, i), c, t).Some?
      && RemoveAt(links, i)[FindLink(RemoveAt(links, i), c, t).value] == links[FindLink(links, c, t).value]
  {
    var r := RemoveAt(links, i);
    forall a, b | 0 <= a < b < |r| ensures Key(r[a]) != Key(r[b]) {
      var a' := if a < i then a else a + 1;
      var b' := if b < i then b else b + 1;
      assert r[a] == links[a'] && r[b] == links[b'] && a' < b';
    }
    forall k | 0 <= k < |r| ensures Key(r[k]) != Key(links[i]) {
      var k' := if k < i then k else k + 1;
      assert r[k] == links[k'] && k' != i;
    }
    if (c, t) != Key(links[i]) && FindLink(links, c, t).Some? {
      var j := FindLink(links, c, t).value;
      var j' := if j < i then j else j - 1;
      assert r[j'] == links[j];
      FindLinkUnique(r, j');
    }
  }

  /** The fish of cycle `c` a link holds. */
  function Share(l: Link, c: nat): int {
    if l.cicloId == c then l.numeroPeces else 0
  }

  /** The fish of cycle `c` over all its links. */
  function CycleFish(links: seq<Link>, c: nat): int {
    if links == [] then 0 else Share(links[0], c) + CycleFish(links[1..], c)
  }

  lemma {:induction false} CycleFishConcat(a: seq<Link>, b: seq<Link>, c: nat)
    ensures CycleFish(a + b, c) == CycleFish(a, c) + CycleFish(b, c)
    decreases |a|
  {
    if a == [] {
      assert a + b == b;
    } else {
      assert (a + b)[1..] == a[1..] + b;
      CycleFishConcat(a[1..], b, c);
    }
  }

  /** Setting one count changes the total by the difference of the two shares. */
  lemma {:induction false} CycleFishSetCount(links: seq<Link>, i: nat, n: int, c: nat)
    requires i < |links|
    ensures CycleFish(SetCount(links, i, n), c) == CycleFish(links, c) - Share(links[i], c) + Share(links[i].(numeroPeces := n), c)
  {
    var l := links[i].(numeroPeces := n);
    assert links == links[..i] + [links[i]] + links[i + 1..];
    assert SetCount(links, i, n) == links[..i] + [l] + links[i + 1..];
    CycleFishConcat(links[..i] + [links[i]], links[i + 1..], c);
    CycleFishConcat(links[..i], [links[i]], c);
    CycleFishConcat(links[..i] + [l], links[i + 1..], c);
    CycleFishConcat(links[..i], [l], c);
  }

  /** Removing one link takes its share off the total. */
  lemma {:induction false} CycleFishRemoveAt(links: seq<Link>, i: nat, c: nat)
    requires i < |links|
    ensures CycleFish(RemoveAt(links, i), c) == CycleFish(links, c) - Share(links[i], c)
  {
    assert links == links[..i] + [links[i]] + links[i + 1..];
    CycleFishConcat(links[..i] + [links[i]], links[i + 1..], c);
    CycleFishConcat(links[..i], [links[i]], c);
    CycleFishConcat(links[..i], links[i + 1..], c);
  }

  /** Adding fish to (c, d) raises cycle `c`'s total by exactly that many and no other cycle's. */
  lemma {:induction false} CycleFishAddFish(links: seq<Link>, c: nat, d: int, n: int, c2: nat)
    ensures CycleFish(AddFish(links, c, d, n), c2) == CycleFish(links, c2) + (if c2 == c then n else 0)
  {
    var j := FindLink(links, c, d);
    if j.Some? {
      CycleFishSetCount(links, j.value, links[j.value].numeroPeces + n, c2);
    } else {
      CycleFishConcat(links, [Link(c, d, n)], c2);
    }
  }

  /** The links `crearCiclo` creates: one per listed tank, each with the cycle's full fish count. */
  function NewLinks(c: nat, ids: seq<int>, n: int): (r: seq<Link>)
    ensures |r| == |ids| && forall k :: 0 <= k < |ids| ==> r[k] == Link(c, ids[k], n)
  {
    seq(|ids|, k requires 0 <= k < |ids| => Link(c, ids[k], n))
  }

  /** The index of the first id listed twice, or `|ids|`: where the key constraint stops the loop. */
  function FirstRepeat(ids: seq<int>): (r: nat)
    ensures r <= |ids|
    ensures forall a, b :: 0 <= a < b < r ==> ids[a] != ids[b]
    ensures r < |ids| ==> ids[r] in ids[..r]
  {
    if ids == [] then 0
    else
      var n := |ids| - 1;
      var r := FirstRepeat(ids[..n]);
      if r < n then
        assert ids[..n][..r] == ids[..r];
        r
      else if ids[n] in ids[..n] then n
      else n + 1
  }

  /** Up to the first repeat, an id is new exactly when the repeat has not been reached. */
  lemma {:induction false} FirstRepeatStep(ids: seq<int>, i: nat)
    requires i <= FirstRepeat(ids) && i < |ids|
    ensures ids[i] in ids[..i] <==> i == FirstRepeat(ids)
  {
    if i < FirstRepeat(ids) {
      assert forall a :: 0 <= a < i ==> ids[a] != ids[i];
    }
  }

  /** A tank id clashes with the links made so far exactly when it was listed before. */
  lemma {:induction false} NewLinksClash(before: seq<Link>, c: nat, ids: seq<int>, i: nat, n: int)
    requires i < |ids| && forall k :: 0 <= k < |before| ==> before[k].cicloId != c
    ensures FindLink(before + NewLinks(c, ids[..i], n), c, ids[i]).Some? <==> ids[i] in ids[..i]
  {
    var l := before + NewLinks(c, ids[..i], n);
    var f := FindLink(l, c, ids[i]);
    if f.Some? {
      assert f.value >= |before|;
      assert ids[..i][f.value - |before|] == ids[i];
    }
    if ids[i] in ids[..i] {
      var k :| 0 <= k < i && ids[..i][k] == ids[i];
      assert Key(l[|before| + k]) == (c, ids[i]);
    }
  }

  /** `cambiarTanque`'s writes to the links once every check has passed. */
  function MoveFish(links: seq<Link>, c: nat, o: int, d: int, cantidad: int): (r: seq<Link>)
    requires FindLink(links, c, o).Some?
  {
    var i := FindLink(links, c, o).value;
    var l1 := SetCount(links, i, links[i].numeroPeces - cantidad);
    var l2 := AddFish(l1, c, d, cantidad);
    if links[i].numeroPeces - cantidad == 0 then RemoveAt(l2, i) else l2
  }

  /** A transfer leaves the fish total of every cycle unchanged. */
  lemma {:induction false} MoveFishConserves(links: seq<Link>, c: nat, o: int, d: int, cantidad: int, c2: nat)
    requires UniqueKeys(links) && FindLink(links, c, o).Some? && o != d
    ensures CycleFish(MoveFish(links, c, o, d, cantidad), c2) == CycleFish(links, c2)
  {
    var i := FindLink(links, c, o).value;
    var l1 := SetCount(links, i, links[i].numeroPeces - cantidad);
    CycleFishSetCount(links, i, links[i].numeroPeces - cantidad, c2);
    var l2 := AddFish(l1, c, d, cantidad);
    CycleFishAddFish(l1, c, d, cantidad, c2);
    assert l2[i] == l1[i];
    if l1[i].numeroPeces == 0 {
      CycleFishRemoveAt(l2, i, c2);
    }
  }

  /**
   * The two steps of a transfer: `l2` is the links after the origin is decreased and the destination
   * increased; the origin link is then deleted when it reaches 0.
   */
  lemma {:induction false} MoveFishSteps(links: seq<Link>, c: nat, o: int, d: int, cantidad: int) returns (i: nat, l2: seq<Link>)
    requires UniqueKeys(links) && FindLink(links, c, o).Some? && o != d
    ensures i == FindLink(links, c, o).value && i < |l2| && UniqueKeys(l2)
    ensures l2[i] == links[i].(numeroPeces := links[i].numeroPeces - cantidad)
    ensures FindLink(l2, c, d).Some?
    ensures l2[FindLink(l2, c, d).value].numeroPeces ==
      (if FindLink(links, c, d).Some? then links[FindLink(links, c, d).value].numeroPeces else 0) + cantidad
    ensures l2 == AddFish(SetCount(links, i, links[i].numeroPeces - cantidad), c, d, cantidad)
  {
    i := FindLink(links, c, o).value;
    var l1 := SetCount(links, i, links[i].numeroPeces - cantidad);
    SetCountKeys(links, i, links[i].numeroPeces - cantidad, c, d);
    var f := FindLink(links, c, d);
    if f.Some? {
      assert f.value != i && l1[f.value] == links[f.value];
    }
    l2 := AddFish(l1, c, d, cantidad);
    AddFishSpec(l1, c, d, cantidad);
  }

  /** A transfer keeps keys unique, and the destination link holds its old count (0 when new) plus `cantidad`. */
  lemma {:induction false} MoveFishDestination(links: seq<Link>, c: nat, o: int, d: int, cantidad: int)
    requires UniqueKeys(links) && FindLink(links, c, o).Some? && o != d
    ensures var r := MoveFish(links, c, o, d, cantidad);
      && UniqueKeys(r)
      && FindLink(r, c, d).Some?
      && r[FindLink(r, c, d).value].numeroPeces ==
           (if FindLink(links, c, d).Some? then links[FindLink(links, c, d).value].numeroPeces else 0) + cantidad
  {
    var i, l2 := MoveFishSteps(links, c, o, d, cantidad);
    var r := MoveFish(links, c, o, d, cantidad);
    if links[i].numeroPeces - cantidad == 0 {
      assert r == RemoveAt(l2, i);
      assert Key(l2[i]) == (c, o);
      RemoveAtSpec(l2, i, c, d);
    } else {
      assert r == l2;
    }
  }

  /** After a transfer the origin link holds its old count minus `cantidad`, or is gone when that reaches 0. */
  lemma {:induction false} MoveFishOrigin(links: seq<Link>, c: nat, o: int, d: int, cantidad: int)
    requires UniqueKeys(links) && FindLink(links, c, o).Some? && o != d
    ensures var r := MoveFish(links, c, o, d, cantidad);
      var before := links[FindLink(links, c, o).value].numeroPeces;
      && (before == cantidad ==> FindLink(r, c, o).None?)
      && (before != cantidad ==> FindLink(r, c, o).Some? && r[FindLink(r, c, o).value].numeroPeces == before - cantidad)
  {
    var i, l2 := MoveFishSteps(links, c, o, d, cantidad);
    var r := MoveFish(links, c, o, d, cantidad);
    assert Key(l2[i]) == (c, o);
    if links[i].numeroPeces - cantidad == 0 {
      assert r == RemoveAt(l2, i);
      RemoveAtSpec(l2, i, c, o);
    } else {
      assert r == l2;
      FindLinkUnique(l2, i);
    }
  }

  /** A transfer creates links only for cycle `c`. */
  lemma {:induction false} MoveFishCycles(links: seq<Link>, c: nat, o: int, d: int, cantidad: int, ids: set<nat>)
    requires FindLink(links, c, o).Some? && CyclesIn(links, ids) && c in ids
    ensures CyclesIn(MoveFish(links, c, o, d, cantidad), ids)
  {
  }
  // ---------------------------------------------------------------- the cycle book

  class CycleBook {
    var ciclos: map<nat, Ciclo>
    var nextCicloId: nat
    var links: seq<Link>
    var bajas: seq<Baja>
    var alimentos: seq<Insumo>
    var quimicos: seq<Insumo>
    var movimientos: seq<Movimiento>

    /** Cycles are stored under their id; links have unique keys and name existing cycles. */
    ghost predicate Valid()
      reads this
    {
      && nextCicloId >= 1
      && (forall id :: id in ciclos ==> 1 <= id < nextCicloId && ciclos[id].id == id)
      && UniqueKeys(links)
      && CyclesIn(links, ciclos.Keys)
    }

    constructor ()
      ensures Valid() && ciclos == map[] && links == [] && bajas == [] && alimentos == [] && quimicos == [] && movimientos == []
    {
      ciclos := map[];
      nextCicloId := 1;
      links := [];
      bajas := [];
      alimentos := [];
      quimicos := [];
      movimientos := [];
    }

    /**
     * `crearCiclo`: the cycle, then one link per listed tank. A tank listed twice
     * breaks the links' key: the handler answers 500 with the cycle and the links
     * before it already stored.
     */
    method CrearCiclo(usuarioId: Option<int>, tanques: Option<TanquesInput>, numeroPeces: Option<int>,
                      costos: Option<int>, fechaInicio: Option<int>) returns (reply: CycleReply)
      requires Valid()
      modifies this
      ensures Valid()
      ensures bajas == old(bajas) && alimentos == old(alimentos) && quimicos == old(quimicos) && movimientos == old(movimientos)
      ensures !TruthyInt(usuarioId) || !TanquesTruthy(tanques) || !TruthyInt(numeroPeces) || !TruthyInt(costos) || fechaInicio.None? ==>
        reply == Fail(400, MsgCamposRequeridos) && ciclos == old(ciclos) && links == old(links) && nextCicloId == old(nextCicloId)
      ensures TruthyInt(usuarioId) && TanquesTruthy(tanques) && TruthyInt(numeroPeces) && TruthyInt(costos) && fechaInicio.Some? ==>
        var ids := AsArray(tanques.value);
        var ciclo := Ciclo(old(nextCicloId), usuarioId.value, numeroPeces.value, costos.value, None, fechaInicio.value, None);
        && ciclos == old(ciclos)[ciclo.id := ciclo]
        && nextCicloId == old(nextCicloId) + 1
        && links == old(links) + NewLinks(ciclo.id, ids[..FirstRepeat(ids)], numeroPeces.value)
        && reply == (if FirstRepeat(ids) == |ids| then Done(201, ciclo) else Fail(500, MsgInterno))
    {
      if !TruthyInt(usuarioId) || !TanquesTruthy(tanques) || !TruthyInt(numeroPeces) || !TruthyInt(costos) || fechaInicio.None? {
        return Fail(400, MsgCamposRequeridos);
      }
      var tanquesArray := AsArray(tanques.value);
      var nuevo := Ciclo(nextCicloId, usuarioId.value, numeroPeces.value, costos.value, None, fechaInicio.value, None);
      assert forall k :: 0 <= k < |links| ==> links[k].cicloId != nuevo.id;
      ciclos := ciclos[nuevo.id := nuevo];
      nextCicloId := nextCicloId + 1;
      var creados := EnlazarTanques(nuevo.id, tanquesArray, numeroPeces.value);
      reply := if creados then Done(201, nuevo) else Fail(500, MsgInterno);
    }

    /**
     * The loop of `crearCiclo` that creates one link per tank of cycle `c`. It
     * stops at the first tank listed twice, whose link would repeat a key.
     */
    method EnlazarTanques(c: nat, ids: seq<int>, n: int) returns (creados: bool)
      requires Valid() && c in ciclos
      requires forall k :: 0 <= k < |links| ==> links[k].cicloId != c
      modifies this
      ensures Valid()
      ensures ciclos == old(ciclos) && nextCicloId == old(nextCicloId)
      ensures bajas == old(bajas) && alimentos == old(alimentos) && quimicos == old(quimicos) && movimientos == old(movimientos)
      ensures links == old(links) + NewLinks(c, ids[..FirstRepeat(ids)], n)
      ensures creados <==> FirstRepeat(ids) == |ids|
    {
      ghost var before := links;
      var i := 0;
      while i < |ids|
        invariant 0 <= i <= FirstRepeat(ids)
        invariant links == before + NewLinks(c, ids[..i], n)
        invariant Valid()
        invariant ciclos == old(ciclos) && nextCicloId == old(nextCicloId)
        invariant bajas == old(bajas) && alimentos == old(alimentos) && quimicos == old(quimicos) && movimientos == old(movimientos)
      {
        var t := ids[i];
        NewLinksClash(before, c, ids, i, n);
        FirstRepeatStep(ids, i);
        if FindLink(links, c, t).Some? {
          return false;
        }
        AppendKeepsKeys(links, Link(c, t, n));
        links := links + [Link(c, t, n)];
        assert ids[..i + 1] == ids[..i] + [t];
        i := i + 1;
      }
      assert ids[..|ids|] == ids;
      creados := true;
    }

    /**
     * `cerrarCiclo` as written: it sets `fecha_fin` on the loaded row and answers
     * 200 with it, but never saves, so the stored cycle stays open.
     */
    method CerrarCiclo(usuarioId: Option<int>, cicloId: Option<int>, fechaFin: Option<int>) returns (reply: CycleReply)
      requires Valid()
      ensures !TruthyInt(cicloId) || fechaFin.None? || !TruthyInt(usuarioId) ==> reply == Fail(400, MsgCicloYFecha)
      ensures TruthyInt(cicloId) && fechaFin.Some? && TruthyInt(usuarioId) ==>
        if cicloId.value < 0 || cicloId.value !in ciclos || ciclos[cicloId.value].usuarioId != usuarioId.value then
          reply == Fail(404, MsgCicloNoEncotrado)
        else if ciclos[cicloId.value].fechaFin.Some? then
          reply == AlreadyClosed(ciclos[cicloId.value].fechaFin.value)
        else
          reply == Done(200, ciclos[cicloId.value].(fechaFin := fechaFin))
    {
      if !TruthyInt(cicloId) || fechaFin.None? || !TruthyInt(usuarioId) {
        return Fail(400, MsgCicloYFecha);
      }
      if cicloId.value < 0 || cicloId.value !in ciclos || ciclos[cicloId.value].usuarioId != usuarioId.value {
        return Fail(404, MsgCicloNoEncotrado);
      }
      var ciclo := ciclos[cicloId.value];
      if ciclo.fechaFin.Some? {
        return AlreadyClosed(ciclo.fechaFin.value);
      }
      ciclo := ciclo.(fechaFin := fechaFin);
      reply := Done(200, ciclo);
    }

    /** `cerrarCiclo` with the missing `await ciclo.save()`: the closing date is stored. */
    method CerrarCicloPersisted(usuarioId: Option<int>, cicloId: Option<int>, fechaFin: Option<int>) returns (reply: CycleReply)
      requires Valid()
      modifies this
      ensures Valid()
      ensures links == old(links) && nextCicloId == old(nextCicloId)
      ensures bajas == old(bajas) && alimentos == old(alimentos) && quimicos == old(quimicos) && movimientos == old(movimientos)
      ensures !TruthyInt(cicloId) || fechaFin.None? || !TruthyInt(usuarioId) ==> reply == Fail(400, MsgCicloYFecha) && ciclos == old(ciclos)
      ensures TruthyInt(cicloId) && fechaFin.Some? && TruthyInt(usuarioId) ==>
        if cicloId.value < 0 || cicloId.value !in old(ciclos) || old(ciclos)[cicloId.value].usuarioId != usuarioId.value then
          reply == Fail(404, MsgCicloNoEncotrado) && ciclos == old(ciclos)
        else if old(ciclos)[cicloId.value].fechaFin.Some? then
          reply == AlreadyClosed(old(ciclos)[cicloId.value].fechaFin.value) && ciclos == old(ciclos)
        else
          var closed := old(ciclos)[cicloId.value].(fechaFin := fechaFin);
          reply == Done(200, closed) && ciclos == old(ciclos)[cicloId.value := closed]
    {
      if !TruthyInt(cicloId) || fechaFin.None? || !TruthyInt(usuarioId) {
        return Fail(400, MsgCicloYFecha);
      }
      if cicloId.value < 0 || cicloId.value !in ciclos || ciclos[cicloId.value].usuarioId != usuarioId.value {
        return Fail(404, MsgCicloNoEncotrado);
      }
      var ciclo := ciclos[cicloId.value];
      if ciclo.fechaFin.Some? {
        return AlreadyClosed(ciclo.fechaFin.value);
      }
      ciclo := ciclo.(fechaFin := fechaFin);
      ciclos := ciclos[ciclo.id := ciclo];
      reply := Done(200, ciclo);
    }

    /**
     * Closing an open cycle twice with `cerrarCiclo` as written: the first call
     * saves nothing, so the second one answers 200 as well, with its own date.
     */
    method CerrarDosVeces(u: int, c: nat, first: int, second: int) returns (r1: CycleReply, r2: CycleReply)
      requires Valid()
      requires c != 0 && u != 0 && c in ciclos && ciclos[c].usuarioId == u && ciclos[c].fechaFin.None?
      ensures r1 == Done(200, ciclos[c].(fechaFin := Some(first)))
      ensures r2 == Done(200, ciclos[c].(fechaFin := Some(second)))
    {
      r1 := CerrarCiclo(Some(u), Some(c), Some(first));
      r2 := CerrarCiclo(Some(u), Some(c), Some(second));
    }

    /** With the date saved, the second close is refused with the first date. */
    method CerrarDosVecesPersisted(u: int, c: nat, first: int, second: int) returns (r1: CycleReply, r2: CycleReply)
      requires Valid()
      requires c != 0 && u != 0 && c in ciclos && ciclos[c].usuarioId == u && ciclos[c].fechaFin.None?
      modifies this
      ensures Valid()
      ensures r1 == Done(200, old(ciclos)[c].(fechaFin := Some(first)))
      ensures r2 == AlreadyClosed(first)
      ensures ciclos == old(ciclos)[c := old(ciclos)[c].(fechaFin := Some(first))]
    {
      r1 := CerrarCicloPersisted(Some(u), Some(c), Some(first));
      r2 := CerrarCicloPersisted(Some(u), Some(c), Some(second));
    }

    /**
     * `actualizarBajas` as written. After the field check and the cycle lookup,
     * `Bajas.create` is given the key `id_tanque`, which is not an attribute of
     * the `bajas` model, so its NOT NULL `tanque_id` is left unset and the
     * insert fails validation: every request that reaches it answers 500, and
     * neither the death log nor the cycle changes.
     */
    method ActualizarBajas(cicloId: Option<int>, cantidad: Option<int>, idTanque: Option<int>) returns (reply: CycleReply)
      requires Valid()
      ensures !TruthyInt(cicloId) || !TruthyInt(cantidad) || !TruthyInt(idTanque) ==> reply == Fail(400, MsgCamposObligatorios)
      ensures TruthyInt(cicloId) && TruthyInt(cantidad) && TruthyInt(idTanque) ==>
        reply == (if cicloId.value < 0 || cicloId.value !in ciclos then Fail(404, MsgCicloNoEncontrado) else Fail(500, MsgInternoSinPunto))
      ensures !reply.Done?
    {
      if !TruthyInt(cicloId) || !TruthyInt(cantidad) || !TruthyInt(idTanque) {
        return Fail(400, MsgCamposObligatorios);
      }
      if cicloId.value < 0 || cicloId.value !in ciclos {
        return Fail(404, MsgCicloNoEncontrado);
      }
      reply := Fail(500, MsgInternoSinPunto);
    }

    /**
     * `actualizarBajas` with the tank stored under `tanque_id`: logs the deaths
     * and moves `cantidad` from the cycle's fish count to its deaths (a null
     * death count reads as 0). The tank links are not touched and nothing
     * bounds `cantidad`.
     */
    method ActualizarBajasWithTank(cicloId: Option<int>, cantidad: Option<int>, idTanque: Option<int>) returns (reply: CycleReply)
      requires Valid()
      modifies this
      ensures Valid()
      ensures links == old(links) && nextCicloId == old(nextCicloId)
      ensures alimentos == old(alimentos) && quimicos == old(quimicos) && movimientos == old(movimientos)
      ensures !TruthyInt(cicloId) || !TruthyInt(cantidad) || !TruthyInt(idTanque) ==>
        reply == Fail(400, MsgCamposObligatorios) && ciclos == old(ciclos) && bajas == old(bajas)
      ensures TruthyInt(cicloId) && TruthyInt(cantidad) && TruthyInt(idTanque) && (cicloId.value < 0 || cicloId.value !in old(ciclos)) ==>
        reply == Fail(404, MsgCicloNoEncontrado) && ciclos == old(ciclos) && bajas == old(bajas)
      ensures TruthyInt(cicloId) && TruthyInt(cantidad) && TruthyInt(idTanque) && cicloId.value >= 0 && cicloId.value in old(ciclos) ==>
        var c := old(ciclos)[cicloId.value];
        var updated := c.(bajas := Some(c.bajas.GetOr(0) + cantidad.value), numeroPeces := c.numeroPeces - cantidad.value);
        && reply == Done(200, updated)
        && ciclos == old(ciclos)[cicloId.value := updated]
        && bajas == old(bajas) + [Baja(cicloId.value, cantidad.value, idTanque.value)]
    {
      if !TruthyInt(cicloId) || !TruthyInt(cantidad) || !TruthyInt(idTanque) {
        return Fail(400, MsgCamposObligatorios);
      }
      if cicloId.value < 0 || cicloId.value !in ciclos {
        return Fail(404, MsgCicloNoEncontrado);
      }
      var ciclo := ciclos[cicloId.value];
      bajas := bajas + [Baja(cicloId.value, cantidad.value, idTanque.value)];
      ciclo := ciclo.(bajas := Some(ciclo.bajas.GetOr(0) + cantidad.value));
      ciclo := ciclo.(numeroPeces := ciclo.numeroPeces - cantidad.value);
      ciclos := ciclos[ciclo.id := ciclo];
      reply := Done(200, ciclo);
    }

    /**
     * `ingresarAlimento` (`quimico` false) and `ingresarQuimico` (`quimico` true):
     * after validation the supply row is written; `costo` is a NOT NULL column,
     * so a missing cost fails that write with 500 before any cost is added.
     * A truthy cost is added to the cycle's costs.
     */
    method IngresarInsumo(quimico: bool, cicloId: Option<int>, cantidad: Option<int>, costo: Option<int>,
                          nombre: Option<string>, descripcion: Option<string>) returns (reply: CycleReply)
      requires Valid()
      modifies this
      ensures Valid()
      ensures links == old(links) && nextCicloId == old(nextCicloId) && bajas == old(bajas) && movimientos == old(movimientos)
      ensures !TruthyInt(cicloId) || !TruthyInt(cantidad) || !TruthyStr(nombre) || !TruthyStr(descripcion) ==>
        reply == Fail(400, MsgCamposRequeridos) && ciclos == old(ciclos) && alimentos == old(alimentos) && quimicos == old(quimicos)
      ensures TruthyInt(cicloId) && TruthyInt(cantidad) && TruthyStr(nombre) && TruthyStr(descripcion) ==>
        if cicloId.value < 0 || cicloId.value !in old(ciclos) then
          reply == Fail(404, MsgCicloNoEncontrado) && ciclos == old(ciclos) && alimentos == old(alimentos) && quimicos == old(quimicos)
        else if costo.None? then
          reply == Fail(500, MsgInternoSinPunto) && ciclos == old(ciclos) && alimentos == old(alimentos) && quimicos == old(quimicos)
        else
          var c := old(ciclos)[cicloId.value];
          var updated := if costo.value != 0 then c.(costos := c.costos + costo.value) else c;
          var row := Insumo(cicloId.value, cantidad.value, costo.value, nombre.value, descripcion.value);
          && reply == Done(201, updated)
          && ciclos == old(ciclos)[cicloId.value := updated]
          && alimentos == (if quimico then old(alimentos) else old(alimentos) + [row])
          && quimicos == (if quimico then old(quimicos) + [row] else old(quimicos))
    {
      if !TruthyInt(cicloId) || !TruthyInt(cantidad) || !TruthyStr(nombre) || !TruthyStr(descripcion) {
        return Fail(400, MsgCamposRequeridos);
      }
      if cicloId.value < 0 || cicloId.value !in ciclos {
        return Fail(404, MsgCicloNoEncontrado);
      }
      var ciclo := ciclos[cicloId.value];
      if costo.None? {
        return Fail(500, MsgInternoSinPunto);
      }
      var row := Insumo(cicloId.value, cantidad.value, costo.value, nombre.value, descripcion.value);
      if quimico {
        quimicos := quimicos + [row];
      } else {
        alimentos := alimentos + [row];
      }
      if costo.value != 0 {
        ciclo := ciclo.(costos := ciclo.costos + costo.value);
      }
      ciclos := ciclos[ciclo.id := ciclo];
      reply := Done(201, ciclo);
    }

    /**
     * `cambiarTanque`: seven checks in the handler's order, the movement row
     * written before the last one, then the fish moved between the two links
     * and the tanks' availability updated.
     */
    method CambiarTanque(tanks: TankTable, cicloId: Option<int>, origen: Option<int>, destino: Option<int>,
                         cantidad: Option<int>) returns (reply: CycleReply)
      requires Valid() && tanks.Valid()
      modifies this, tanks
      ensures Valid() && tanks.Valid()
      ensures ciclos == old(ciclos) && nextCicloId == old(nextCicloId)
      ensures bajas == old(bajas) && alimentos == old(alimentos) && quimicos == old(quimicos)
      ensures tanks.mediciones == old(tanks.mediciones)
      ensures reply == TransferCheck(old(ciclos), old(links), old(tanks.tanks), cicloId, origen, destino, cantidad)
      ensures (reply.Fail? && reply.error != MsgSinPeces) ==>
        links == old(links) && movimientos == old(movimientos) && tanks.tanks == old(tanks.tanks)
      ensures (reply.Fail? && reply.error == MsgSinPeces) ==>
        links == old(links) && tanks.tanks == old(tanks.tanks)
        && movimientos == old(movimientos) + [Movimiento(cicloId.value, origen.value, destino.value, cantidad.value)]
      ensures reply.Done? ==>
        var c, o, d, n := cicloId.value, origen.value, destino.value, cantidad.value;
        && movimientos == old(movimientos) + [Movimiento(c, o, d, n)]
        && links == MoveFish(old(links), c, o, d, n)
        && tanks.tanks == Availability(old(tanks.tanks), old(links), c, o, d, n)
    {
      reply := TransferCheck(ciclos, links, tanks.tanks, cicloId, origen, destino, cantidad);
      if reply.Fail? && reply.error != MsgSinPeces {
        return;
      }
      var c: nat, o, d, n := cicloId.value, origen.value, destino.value, cantidad.value;
      movimientos := movimientos + [Movimiento(c, o, d, n)];
      if reply.Fail? {
        return;
      }
      MoverPeces(tanks, c, o, d, n);
    }

    /**
     * The link writes of `cambiarTanque`: the origin link loses `n` fish, the
     * destination link gains them (or is created), and an emptied origin link
     * is deleted.
     */
    method MoveLinks(c: nat, o: int, d: int, n: int)
      requires Valid() && c in ciclos && FindLink(links, c, o).Some? && o != d
      modifies this
      ensures Valid()
      ensures ciclos == old(ciclos) && nextCicloId == old(nextCicloId)
      ensures bajas == old(bajas) && alimentos == old(alimentos) && quimicos == old(quimicos) && movimientos == old(movimientos)
      ensures links == MoveFish(old(links), c, o, d, n)
    {
      var io := FindLink(links, c, o).value;
      ghost var moved := MoveFish(links, c, o, d, n);
      MoveFishDestination(links, c, o, d, n);
      MoveFishCycles(links, c, o, d, n, ciclos.Keys);
      var origenPeces := links[io].numeroPeces - n;
      var l1 := SetCount(links, io, origenPeces);
      var l2 := AddFish(l1, c, d, n);
      links := if origenPeces == 0 then RemoveAt(l2, io) else l2;
      assert links == moved;
    }

    /**
     * The writes of `cambiarTanque` once every check has passed: the links are
     * moved, an emptied origin link frees its tank, and the destination tank
     * is taken.
     */
    method MoverPeces(tanks: TankTable, c: nat, o: int, d: int, n: int)
      requires Valid() && tanks.Valid()
      requires c in ciclos && FindLink(links, c, o).Some? && o != d
      requires FindTank(tanks.tanks, o).Some? && FindTank(tanks.tanks, d).Some?
      modifies this, tanks
      ensures Valid() && tanks.Valid()
      ensures ciclos == old(ciclos) && nextCicloId == old(nextCicloId)
      ensures bajas == old(bajas) && alimentos == old(alimentos) && quimicos == old(quimicos) && movimientos == old(movimientos)
      ensures tanks.mediciones == old(tanks.mediciones)
      ensures links == MoveFish(old(links), c, o, d, n)
      ensures tanks.tanks == Availability(old(tanks.tanks), old(links), c, o, d, n)
    {
      var emptied := links[FindLink(links, c, o).value].numeroPeces - n == 0;
      MoveLinks(c, o, d, n);
      var to := FindTank(tanks.tanks, o).value;
      var td := FindTank(tanks.tanks, d).value;
      if emptied {
        tanks.SetDisponible(to, true);
      }
      tanks.SetDisponible(td, false);
    }
  }

  /** The tanks after a transfer: the origin becomes available when its link empties; the destination is taken. */
  function Availability(tanks: seq<Tanque>, links: seq<Link>, c: nat, o: int, d: int, n: int): seq<Tanque>
    requires FindLink(links, c, o).Some? && FindTank(tanks, o).Some? && FindTank(tanks, d).Some?
  {
    var to := FindTank(tanks, o).value;
    var td := FindTank(tanks, d).value;
    var t1 := if links[FindLink(links, c, o).value].numeroPeces - n == 0 then tanks[to := tanks[to].(disponible := true)] else tanks;
    t1[td := t1[td].(disponible := false)]
  }

  /**
   * The answer of `cambiarTanque` as a function of the stored state. A `Done`
   * answer means every check passed and fish were moved.
   */
  function TransferCheck(ciclos: map<nat, Ciclo>, links: seq<Link>, tanks: seq<Tanque>, cicloId: Option<int>,
                         origen: Option<int>, destino: Option<int>, cantidad: Option<int>): (r: CycleReply)
    ensures r.Done? ==> && TruthyInt(cicloId) && TruthyInt(origen) && TruthyInt(destino) && TruthyInt(cantidad)
                        && cicloId.value >= 0 && cicloId.value in ciclos && r.ciclo == ciclos[cicloId.value]
                        && FindLink(links, cicloId.value, origen.value).Some?
                        && origen.value != destino.value
                        && FindTank(tanks, origen.value).Some? && FindTank(tanks, destino.value).Some?
                        && tanks[FindTank(tanks, destino.value).value].disponible
                        && cantidad.value <= links[FindLink(links, cicloId.value, origen.value).value].numeroPeces
                        && r.status == 200
    ensures r.Fail? && r.error == MsgSinPeces ==>
      && TruthyInt(cicloId) && TruthyInt(origen) && TruthyInt(destino) && TruthyInt(cantidad)
      && cicloId.value >= 0 && FindLink(links, cicloId.value, origen.value).Some?
      && origen.value != destino.value
      && FindTank(tanks, origen.value).Some? && FindTank(tanks, destino.value).Some?
    ensures r.Done? || r.Fail?
  {
    if !TruthyInt(cicloId) || !TruthyInt(origen) || !TruthyInt(destino) || !TruthyInt(cantidad) then Fail(400, MsgCamposRequeridos)
    else if cicloId.value < 0 || FindLink(links, cicloId.value, origen.value).None? then Fail(400, MsgOrigenAjeno)
    else if cicloId.value !in ciclos then Fail(404, MsgCicloNoEncontrado)
    else if origen.value == destino.value then Fail(400, MsgMismoTanque)
    else if FindTank(tanks, origen.value).None? || FindTank(tanks, destino.value).None? then Fail(404, MsgTanqueNoEncontrado)
    else if !tanks[FindTank(tanks, destino.value).value].disponible then Fail(400, MsgDestinoOcupado)
    else if links[FindLink(links, cicloId.value, origen.value).value].numeroPeces < cantidad.value then Fail(400, MsgSinPeces)
    else Done(200, ciclos[cicloId.value])
  }

  /**
   * The seven checks of `cambiarTanque` in the handler's order: each refusal
   * happens exactly when the checks before it pass and its own fails, and the
   * transfer is accepted exactly when all of them pass.
   */
  lemma TransferCheckOrder(ciclos: map<nat, Ciclo>, links: seq<Link>, tanks: seq<Tanque>, cicloId: Option<int>,
                           origen: Option<int>, destino: Option<int>, cantidad: Option<int>)
    ensures var r := TransferCheck(ciclos, links, tanks, cicloId, origen, destino, cantidad);
      var fields := TruthyInt(cicloId) && TruthyInt(origen) && TruthyInt(destino) && TruthyInt(cantidad);
      var linked := fields && cicloId.value >= 0 && FindLink(links, cicloId.value, origen.value).Some?;
      var found := linked && cicloId.value in ciclos;
      var distinct := found && origen.value != destino.value;
      var tanksFound := distinct && FindTank(tanks, origen.value).Some? && FindTank(tanks, destino.value).Some?;
      var free := tanksFound && tanks[FindTank(tanks, destino.value).value].disponible;
      var enough := free && cantidad.value <= links[FindLink(links, cicloId.value, origen.value).value].numeroPeces;
      && (r == Fail(400, MsgCamposRequeridos) <==> !fields)
      && (r == Fail(400, MsgOrigenAjeno) <==> fields && !linked)
      && (r == Fail(404, MsgCicloNoEncontrado) <==> linked && !found)
      && (r == Fail(400, MsgMismoTanque) <==> found && !distinct)
      && (r == Fail(404, MsgTanqueNoEncontrado) <==> distinct && !tanksFound)
      && (r == Fail(400, MsgDestinoOcupado) <==> tanksFound && !free)
      && (r == Fail(400, MsgSinPeces) <==> free && !enough)
      && (r.Done? <==> enough)
      && (enough ==> r == Done(200, ciclos[cicloId.value]))
  {
  }

  /** The same tank as origin and destination is refused before any tank is looked at. */
  lemma SameTankRefused(ciclos: map<nat, Ciclo>, links: seq<Link>, tanks: seq<Tanque>, c: nat, t: int, n: int)
    requires c != 0 && t != 0 && n != 0 && c in ciclos && FindLink(links, c, t).Some?
    ensures TransferCheck(ciclos, links, tanks, Some(c), Some(t), Some(t), Some(n)) == Fail(400, MsgMismoTanque)
  {
  }

  /** A transfer from a tank the cycle does not use is refused even when the cycle does not exist. */
  lemma ForeignOriginCheckedFirst(ciclos: map<nat, Ciclo>, links: seq<Link>, tanks: seq<Tanque>, c: nat, o: int, d: int, n: int)
    requires c != 0 && o != 0 && d != 0 && n != 0 && FindLink(links, c, o).None?
    ensures TransferCheck(ciclos, links, tanks, Some(c), Some(o), Some(d), Some(n)) == Fail(400, MsgOrigenAjeno)
  {
  }

  /** Deaths move fish from the count to the death total: their sum is unchanged. */
  lemma BajasKeepSum(c: Ciclo, cantidad: int)
    ensures var u := c.(bajas := Some(c.bajas.GetOr(0) + cantidad), numeroPeces := c.numeroPeces - cantidad);
      u.bajas.value + u.numeroPeces == c.bajas.GetOr(0) + c.numeroPeces
  {
  }
}
