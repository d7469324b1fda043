/**
 * The tank handlers of Backend/src/controllers/tanque.ts over the `tanques`
 * table and its water-quality measurements: creation with a derived default
 * name and one all-zero measurement, deletion and editing restricted to the
 * owner, and a partial update of a tank's newest measurement.
 *
 * The measured quantities and the volume are FLOAT columns that are only
 * copied; they are modelled as integers.
 */
module Tanques {
  import opened Wrappers
  import opened Decimal

  datatype Tanque = Tanque(id: nat, nombre: string, volumen: int, tipoTanque: string, disponible: bool, usuarioId: int)

  /** The eight readings of a measurement. */
  datatype Lecturas = Lecturas(
    ph: int, oxigenoDisuelto: int, temperatura: int, nitritos: int,
    amoniaco: int, nitratos: int, dureza: int, salinidad: int)

  const ZeroLecturas: Lecturas := Lecturas(0, 0, 0, 0, 0, 0, 0, 0)

  datatype Medicion = Medicion(id: nat, tanqueId: nat, createdAt: int, lecturas: Lecturas)

  /** A request field compared with `!== undefined`: absent, or a value to store. */
  datatype Patch<T> = Absent | Set(value: T) {
    function Over(current: T): T {
      if Set? then value else current
    }
  }

  datatype TanquePatch = TanquePatch(nombre: Patch<string>, volumen: Patch<int>, tipoTanque: Patch<string>, disponible: Patch<bool>)

  datatype LecturasPatch = LecturasPatch(
    ph: Patch<int>, oxigenoDisuelto: Patch<int>, temperatura: Patch<int>, nitritos: Patch<int>,
    amoniaco: Patch<int>, nitratos: Patch<int>, dureza: Patch<int>, salinidad: Patch<int>)

  datatype TankReply =
    | TankFail(status: nat, error: string)
    | TankCreated(tanque: Tanque)
    | TankDeleted
    | TankSaved(tanque: Tanque)
    | MedicionSaved(medicion: Medicion)

  const MsgCampos: string := "Todos los campos son requeridos."
  const MsgIdsRequeridos: string := "tanque_id y usuario_id son requeridos."
  const MsgTanqueNoEncontrado: string := "Tanque no encontrado."
  const MsgTanqueIdRequerido: string := "tanque_id es requerido."
  const MsgMedicionNoEncontrada: string := "Medicion no encontrada"

  /** JavaScript truthiness of optional numbers and strings. */
  predicate TruthyInt(x: Option<int>) { x.Some? && x.value != 0 }
  predicate TruthyStr(x: Option<string>) { x.Some? && x.value != "" }

  /** The highest id among `usuarioId`'s tanks (`findOne({ where: { usuario_id }, order: [['id', 'DESC']] })`). */
  function HighestIdOf(tanks: seq<Tanque>, usuarioId: int): (r: Option<nat>)
    ensures r.Some? ==> exists k :: 0 <= k < |tanks| && tanks[k].usuarioId == usuarioId && tanks[k].id == r.value
    ensures r.Some? ==> forall k :: 0 <= k < |tanks| && tanks[k].usuarioId == usuarioId ==> tanks[k].id <= r.value
    ensures r.None? <==> forall k :: 0 <= k < |tanks| ==> tanks[k].usuarioId != usuarioId
  {
    if tanks == [] then None
    else
      var last := tanks[|tanks| - 1];
      var r := HighestIdOf(tanks[..|tanks| - 1], usuarioId);
      if last.usuarioId != usuarioId then r
      else if r.Some? && r.value >= last.id then r
      else Some(last.id)
  }

  /** The number a default name carries: one past the user's highest tank id, or 1. */
  function NextNumber(tanks: seq<Tanque>, usuarioId: int): (n: nat)
    ensures n >= 1
    ensures forall k :: 0 <= k < |tanks| && tanks[k].usuarioId == usuarioId ==> tanks[k].id < n
  {
    var h := HighestIdOf(tanks, usuarioId);
    if h.Some? then h.value + 1 else 1
  }

  /** `tanque ${siguienteId}`. */
  function DefaultName(tanks: seq<Tanque>, usuarioId: int): string {
    "tanque " + NatToText(NextNumber(tanks, usuarioId))
  }

  /** A default name is "tanque " followed by the decimal digits of the next number, which read back exactly. */
  lemma DefaultNameReadsBack(tanks: seq<Tanque>, usuarioId: int)
    ensures var name := DefaultName(tanks, usuarioId);
      |name| > 7 && name[..7] == "tanque " && AllDigits(name[7..])
      && ParseNat(name[7..]) == NextNumber(tanks, usuarioId)
  {
    var n := NextNumber(tanks, usuarioId);
    assert DefaultName(tanks, usuarioId)[7..] == NatToText(n);
    ParseNatToText(n);
  }

  /** The index of the tank with id `id` owned by `usuarioId` (`findOne({ where: { id, usuario_id } })`). */
  function FindOwned(tanks: seq<Tanque>, id: int, usuarioId: int): (r: Option<nat>)
    ensures r.Some? ==> r.value < |tanks| && tanks[r.value].id == id && tanks[r.value].usuarioId == usuarioId
    ensures r.None? ==> forall k :: 0 <= k < |tanks| ==> !(tanks[k].id == id && tanks[k].usuarioId == usuarioId)
  {
    if tanks == [] then None
    else if tanks[0].id == id && tanks[0].usuarioId == usuarioId then Some(0)
    else
      var r := FindOwned(tanks[1..], id, usuarioId);
      if r.Some? then Some(r.value + 1) else None
  }

  /** The index of the tank with id `id`, whoever owns it (`findByPk`). */
  function FindTank(tanks: seq<Tanque>, id: int): (r: Option<nat>)
    ensures r.Some? ==> r.value < |tanks| && tanks[r.value].id == id
    ensures r.None? ==> forall k :: 0 <= k < |tanks| ==> tanks[k].id != id
  {
    if tanks == [] then None
    else if tanks[0].id == id then Some(0)
    else
      var r := FindTank(tanks[1..], id);
      if r.Some? then Some(r.value + 1) else None
  }

  /** The newest measurement of a tank by `createdAt` (`order: [['createdAt', 'DESC']]`); ties go to the earlier row. */
  function Newest(meds: seq<Medicion>, tanqueId: int): (r: Option<nat>)
    ensures r.Some? ==> r.value < |meds| && meds[r.value].tanqueId == tanqueId
    ensures r.Some? ==> forall k :: 0 <= k < |meds| && meds[k].tanqueId == tanqueId ==> meds[k].createdAt <= meds[r.value].createdAt
    ensures r.None? <==> forall k :: 0 <= k < |meds| ==> meds[k].tanqueId != tanqueId
  {
    if meds == [] then None
    else
      var last := meds[|meds| - 1];
      var r := Newest(meds[..|meds| - 1], tanqueId);
      if last.tanqueId != tanqueId then r
      else if r.Some? && meds[r.value].createdAt >= last.createdAt then r
      else Some(|meds| - 1)
  }

  function ApplyTanque(t: Tanque, p: TanquePatch): Tanque {
    t.(nombre := p.nombre.Over(t.nombre), volumen := p.volumen.Over(t.volumen),
       tipoTanque := p.tipoTanque.Over(t.tipoTanque), disponible := p.disponible.Over(t.disponible))
  }

  function ApplyLecturas(l: Lecturas, p: LecturasPatch): Lecturas {
    Lecturas(p.ph.Over(l.ph), p.oxigenoDisuelto.Over(l.oxigenoDisuelto), p.temperatura.Over(l.temperatura),
             p.nitritos.Over(l.nitritos), p.amoniaco.Over(l.amoniaco), p.nitratos.Over(l.nitratos),
             p.dureza.Over(l.dureza), p.salinidad.Over(l.salinidad))
  }

  /** An edit keeps the id and the owner, stores each supplied field, and keeps each absent one. */
  lemma ApplyTanqueFields(t: Tanque, p: TanquePatch)
    ensures var r := ApplyTanque(t, p);
      && r.id == t.id && r.usuarioId == t.usuarioId
      && (p.nombre.Set? ==> r.nombre == p.nombre.value) && (p.nombre.Absent? ==> r.nombre == t.nombre)
      && (p.volumen.Set? ==> r.volumen == p.volumen.value) && (p.volumen.Absent? ==> r.volumen == t.volumen)
      && (p.tipoTanque.Set? ==> r.tipoTanque == p.tipoTanque.value) && (p.tipoTanque.Absent? ==> r.tipoTanque == t.tipoTanque)
      && (p.disponible.Set? ==> r.disponible == p.disponible.value) && (p.disponible.Absent? ==> r.disponible == t.disponible)
  {
  }

  /** Applying the same edit twice is the same as once. */
  lemma ApplyIdempotent(t: Tanque, p: TanquePatch, l: Lecturas, q: LecturasPatch)
    ensures ApplyTanque(ApplyTanque(t, p), p) == ApplyTanque(t, p)
    ensures ApplyLecturas(ApplyLecturas(l, q), q) == ApplyLecturas(l, q)
  {
  }

  /** Ids are distinct and below the next auto-increment value. */
  ghost predicate TankIds(tanks: seq<Tanque>, next: nat) {
    && next >= 1
    && (forall k :: 0 <= k < |tanks| ==> 1 <= tanks[k].id < next)
    && (forall a, b :: 0 <= a < b < |tanks| ==> tanks[a].id != tanks[b].id)
  }

  ghost predicate MedicionIds(meds: seq<Medicion>, next: nat) {
    && next >= 1
    && (forall k :: 0 <= k < |meds| ==> 1 <= meds[k].id < next)
    && (forall a, b :: 0 <= a < b < |meds| ==> meds[a].id != meds[b].id)
  }

  class TankTable {
    var tanks: seq<Tanque>
    var mediciones: seq<Medicion>
    var nextTankId: nat
    var nextMedicionId: nat

    ghost predicate Valid()
      reads this
    {
      TankIds(tanks, nextTankId) && MedicionIds(mediciones, nextMedicionId)
    }

    constructor ()
      ensures Valid() && tanks == [] && mediciones == []
    {
      tanks := [];
      mediciones := [];
      nextTankId := 1;
      nextMedicionId := 1;
    }

    /** `crearTanque`: the tank, then its first measurement with every reading 0. */
    method CrearTanque(volumen: Option<int>, nombre: Option<string>, tipoTanque: Option<string>,
                       usuarioId: Option<int>, nowMs: int) returns (reply: TankReply)
      requires Valid()
      modifies this
      ensures Valid()
      ensures !TruthyInt(volumen) || !TruthyStr(tipoTanque) || !TruthyInt(usuarioId) ==>
        reply == TankFail(400, MsgCampos) && tanks == old(tanks) && mediciones == old(mediciones)
        && nextTankId == old(nextTankId) && nextMedicionId == old(nextMedicionId)
      ensures TruthyInt(volumen) && TruthyStr(tipoTanque) && TruthyInt(usuarioId) ==>
        var t := Tanque(old(nextTankId),
                        if TruthyStr(nombre) then nombre.value else DefaultName(old(tanks), usuarioId.value),
                        volumen.value, tipoTanque.value, true, usuarioId.value);
        && reply == TankCreated(t)
        && tanks == old(tanks) + [t]
        && mediciones == old(mediciones) + [Medicion(old(nextMedicionId), t.id, nowMs, ZeroLecturas)]
        && nextTankId == old(nextTankId) + 1 && nextMedicionId == old(nextMedicionId) + 1
    {
      if !TruthyInt(volumen) || !TruthyStr(tipoTanque) || !TruthyInt(usuarioId) {
        return TankFail(400, MsgCampos);
      }
      var nombreFinal := nombre;
      if !TruthyStr(nombreFinal) {
        var ultimo := HighestIdOf(tanks, usuarioId.value);
        var siguienteId := if ultimo.Some? then ultimo.value + 1 else 1;
        nombreFinal := Some("tanque " + NatToText(siguienteId));
      }
      var nuevo := Tanque(nextTankId, nombreFinal.value, volumen.value, tipoTanque.value, true, usuarioId.value);
      tanks := tanks + [nuevo];
      nextTankId := nextTankId + 1;
      mediciones := mediciones + [Medicion(nextMedicionId, nuevo.id, nowMs, ZeroLecturas)];
      nextMedicionId := nextMedicionId + 1;
      reply := TankCreated(nuevo);
    }

    /** `eliminarTanque`: only the owner's tank is removed. */
    method EliminarTanque(tanqueId: Option<int>, usuarioId: Option<int>) returns (reply: TankReply)
      requires Valid()
      modifies this
      ensures Valid() && mediciones == old(mediciones)
      ensures nextTankId == old(nextTankId) && nextMedicionId == old(nextMedicionId)
      ensures !TruthyInt(tanqueId) || !TruthyInt(usuarioId) ==> reply == TankFail(400, MsgIdsRequeridos) && tanks == old(tanks)
      ensures TruthyInt(tanqueId) && TruthyInt(usuarioId) ==>
        var i := FindOwned(old(tanks), tanqueId.value, usuarioId.value);
        if i.None? then reply == TankFail(404, MsgTanqueNoEncontrado) && tanks == old(tanks)
        else reply == TankDeleted && tanks == old(tanks)[..i.value] + old(tanks)[i.value + 1..]
    {
      if !TruthyInt(tanqueId) || !TruthyInt(usuarioId) {
        return TankFail(400, MsgIdsRequeridos);
      }
      var i := FindOwned(tanks, tanqueId.value, usuarioId.value);
      if i.None? {
        return TankFail(404, MsgTanqueNoEncontrado);
      }
      tanks := tanks[..i.value] + tanks[i.value + 1..];
      reply := TankDeleted;
    }

    /** `editarTanque`: only the owner's tank is edited, and only in the supplied fields. */
    method EditarTanque(tanqueId: Option<int>, usuarioId: Option<int>, patch: TanquePatch) returns (reply: TankReply)
      requires Valid()
      modifies this
      ensures Valid() && mediciones == old(mediciones)
      ensures nextTankId == old(nextTankId) && nextMedicionId == old(nextMedicionId)
      ensures !TruthyInt(tanqueId) || !TruthyInt(usuarioId) ==> reply == TankFail(400, MsgIdsRequeridos) && tanks == old(tanks)
      ensures TruthyInt(tanqueId) && TruthyInt(usuarioId) ==>
        var i := FindOwned(old(tanks), tanqueId.value, usuarioId.value);
        if i.None? then reply == TankFail(404, MsgTanqueNoEncontrado) && tanks == old(tanks)
        else
          var t := ApplyTanque(old(tanks)[i.value], patch);
          reply == TankSaved(t) && tanks == old(tanks)[i.value := t]
    {
      if !TruthyInt(tanqueId) || !TruthyInt(usuarioId) {
        return TankFail(400, MsgIdsRequeridos);
      }
      var i := FindOwned(tanks, tanqueId.value, usuarioId.value);
      if i.None? {
        return TankFail(404, MsgTanqueNoEncontrado);
      }
      var tanque := tanks[i.value];
      if patch.nombre.Set? { tanque := tanque.(nombre := patch.nombre.value); }
      if patch.volumen.Set? { tanque := tanque.(volumen := patch.volumen.value); }
      if patch.tipoTanque.Set? { tanque := tanque.(tipoTanque := patch.tipoTanque.value); }
      if patch.disponible.Set? { tanque := tanque.(disponible := patch.disponible.value); }
      tanks := tanks[i.value := tanque];
      reply := TankSaved(tanque);
    }

    /** `actualizarMediciones`: the supplied readings overwrite those of the tank's newest measurement. */
    method ActualizarMediciones(tanqueId: Option<int>, patch: LecturasPatch) returns (reply: TankReply)
      requires Valid()
      modifies this
      ensures Valid() && tanks == old(tanks)
      ensures nextTankId == old(nextTankId) && nextMedicionId == old(nextMedicionId)
      ensures !TruthyInt(tanqueId) ==> reply == TankFail(400, MsgTanqueIdRequerido) && mediciones == old(mediciones)
      ensures TruthyInt(tanqueId) ==>
        var i := Newest(old(mediciones), tanqueId.value);
        if i.None? then reply == TankFail(404, MsgMedicionNoEncontrada) && mediciones == old(mediciones)
        else
          var m := old(mediciones)[i.value].(lecturas := ApplyLecturas(old(mediciones)[i.value].lecturas, patch));
          reply == MedicionSaved(m) && mediciones == old(mediciones)[i.value := m]
    {
      if !TruthyInt(tanqueId) {
        return TankFail(400, MsgTanqueIdRequerido);
      }
      var i := Newest(mediciones, tanqueId.value);
      if i.None? {
        return TankFail(404, MsgMedicionNoEncontrada);
      }
      var medicion := mediciones[i.value];
      medicion := medicion.(lecturas := ApplyLecturas(medicion.lecturas, patch));
      mediciones := mediciones[i.value := medicion];
      reply := MedicionSaved(medicion);
    }

    /** `tanque.disponible = value; await tanque.save()` for the tank at index `i`. */
    method SetDisponible(i: nat, value: bool)
      requires Valid() && i < |tanks|
      modifies this
      ensures Valid()
      ensures tanks == old(tanks)[i := old(tanks)[i].(disponible := value)]
      ensures mediciones == old(mediciones) && nextTankId == old(nextTankId) && nextMedicionId == old(nextMedicionId)
    {
      tanks := tanks[i := tanks[i].(disponible := value)];
    }
  }

  /** The name of a user's first tank is "tanque 1". */
  lemma FirstTankName(tanks: seq<Tanque>, usuarioId: int)
    requires forall k :: 0 <= k < |tanks| ==> tanks[k].usuarioId != usuarioId
    ensures DefaultName(tanks, usuarioId) == "tanque 1"
  {
    assert NatToText(1) == "1";
  }
}
