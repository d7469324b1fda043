/**
 * The inventory handlers of Backend/src/controllers/inventario.ts: add an
 * item, read one by id, update it field by field, delete it.
 *
 * The table is a map from primary key to item. Request fields that may be
 * missing or null are `Option`s. The update treats its fields two ways:
 * `nombre`, `descripcion` and `unidad` replace the stored value only when
 * truthy (`x || old`), while `cantidad` replaces it whenever it is present
 * (`x ?? old`), so a quantity of 0 is stored but an empty name is not.
 */
module Inventario {
  import opened Wrappers

  datatype Item = Item(id: nat, nombre: Option<string>, descripcion: Option<string>,
                       cantidad: Option<int>, unidad: Option<string>)

  /** The request body of an add or an update. */
  datatype ItemBody = ItemBody(nombre: Option<string>, descripcion: Option<string>,
                               cantidad: Option<int>, unidad: Option<string>)

  datatype InvReply =
    | InvFail(status: nat, message: string)
    | InvItem(status: nat, item: Item)
    | InvDeleted(message: string)

  const MsgNoEncontrado: string := "Item no encontrado"
  const MsgEliminado: string := "Item eliminado correctamente"

  /** JavaScript's `x || fallback` on an optional string. */
  function OrStr(x: Option<string>, fallback: Option<string>): (r: Option<string>)
    ensures x.Some? && x.value != "" ==> r == x
    ensures x.None? || x.value == "" ==> r == fallback
  {
    if x.Some? && x.value != "" then x else fallback
  }

  /** JavaScript's `x ?? fallback`: only null and undefined fall back. */
  function Coalesce(x: Option<int>, fallback: Option<int>): (r: Option<int>)
    ensures x.Some? ==> r == x
    ensures x.None? ==> r == fallback
  {
    if x.Some? then x else fallback
  }

  /** The item after `updateInventario`'s four assignments. */
  function ApplyBody(item: Item, b: ItemBody): Item {
    item.(nombre := OrStr(b.nombre, item.nombre),
          descripcion := OrStr(b.descripcion, item.descripcion),
          cantidad := Coalesce(b.cantidad, item.cantidad),
          unidad := OrStr(b.unidad, item.unidad))
  }

  /**
   * What an update keeps and replaces: a truthy string replaces, an empty or
   * missing one keeps; any present quantity replaces, 0 included; the id never changes.
   */
  lemma ApplyBodyFields(item: Item, b: ItemBody)
    ensures var r := ApplyBody(item, b);
      && r.id == item.id
      && (r.nombre == if b.nombre.Some? && b.nombre.value != "" then b.nombre else item.nombre)
      && (r.descripcion == if b.descripcion.Some? && b.descripcion.value != "" then b.descripcion else item.descripcion)
      && (r.unidad == if b.unidad.Some? && b.unidad.value != "" then b.unidad else item.unidad)
      && (r.cantidad == if b.cantidad.Some? then b.cantidad else item.cantidad)
  {
  }

  /** A quantity of 0 is written, an empty name is not. */
  lemma ZeroQuantityStoredEmptyNameKept(item: Item)
    ensures ApplyBody(item, ItemBody(Some(""), None, Some(0), None)) == item.(cantidad := Some(0))
  {
  }

  /** Sending the same update twice is the same as sending it once. */
  lemma ApplyBodyIdempotent(item: Item, b: ItemBody)
    ensures ApplyBody(ApplyBody(item, b), b) == ApplyBody(item, b)
  {
  }

  /** `getInventarioById` on the stored items. */
  function GetById(items: map<nat, Item>, id: int): (r: InvReply)
    ensures r.InvFail? <==> id < 0 || id !in items
    ensures r.InvFail? ==> r == InvFail(404, MsgNoEncontrado)
    ensures r.InvItem? ==> r.status == 200 && r.item == items[id]
  {
    if id < 0 || id !in items then InvFail(404, MsgNoEncontrado) else InvItem(200, items[id])
  }

  class InventoryTable {
    var items: map<nat, Item>
    var nextId: nat

    /** Every item is stored under its own id, below the next id to hand out. */
    ghost predicate Valid()
      reads this
    {
      nextId >= 1 && forall id :: id in items ==> 1 <= id < nextId && items[id].id == id
    }

    constructor ()
      ensures Valid() && items == map[]
    {
      items := map[];
      nextId := 1;
    }

    /** `addInventario`: one new item holding the four given fields, answered with 201. */
    method AddInventario(b: ItemBody) returns (reply: InvReply)
      requires Valid()
      modifies this
      ensures Valid() && nextId == old(nextId) + 1
      ensures var item := Item(old(nextId), b.nombre, b.descripcion, b.cantidad, b.unidad);
        && old(nextId) !in old(items)
        && items == old(items)[item.id := item]
        && reply == InvItem(201, item)
    {
      var item := Item(nextId, b.nombre, b.descripcion, b.cantidad, b.unidad);
      items := items[item.id := item];
      nextId := nextId + 1;
      reply := InvItem(201, item);
    }

    /** `getInventarioById`: reads only; a found item carries the id it was asked for. */
    method GetInventarioById(id: int) returns (reply: InvReply)
      requires Valid()
      ensures reply.InvFail? <==> id < 0 || id !in items
      ensures reply.InvFail? ==> reply == InvFail(404, MsgNoEncontrado)
      ensures reply.InvItem? ==> reply.status == 200 && reply.item == items[id] && reply.item.id == id
    {
      if id < 0 || id !in items {
        return InvFail(404, MsgNoEncontrado);
      }
      reply := InvItem(200, items[id]);
    }

    /** `updateInventario`: 404 for an unknown id; otherwise the patched item is saved and returned. */
    method UpdateInventario(id: int, b: ItemBody) returns (reply: InvReply)
      requires Valid()
      modifies this
      ensures Valid() && nextId == old(nextId)
      ensures id < 0 || id !in old(items) ==> reply == InvFail(404, MsgNoEncontrado) && items == old(items)
      ensures id >= 0 && id in old(items) ==>
        var updated := ApplyBody(old(items)[id], b);
        reply == InvItem(200, updated) && items == old(items)[id := updated]
    {
      if id < 0 || id !in items {
        return InvFail(404, MsgNoEncontrado);
      }
      var item := items[id];
      item := ApplyBody(item, b);
      items := items[id := item];
      reply := InvItem(200, item);
    }

    /** `deleteInventario`: 404 for an unknown id; otherwise exactly that item is removed. */
    method DeleteInventario(id: int) returns (reply: InvReply)
      requires Valid()
      modifies this
      ensures Valid() && nextId == old(nextId)
      ensures id < 0 || id !in old(items) ==> reply == InvFail(404, MsgNoEncontrado) && items == old(items)
      ensures id >= 0 && id in old(items) ==>
        reply == InvDeleted(MsgEliminado) && items == old(items) - {id as nat}
    {
      if id < 0 || id !in items {
        return InvFail(404, MsgNoEncontrado);
      }
      items := items - {id as nat};
      reply := InvDeleted(MsgEliminado);
    }
  }

  /** After an update, reading the item back gives the patched item. */
  lemma UpdateThenGet(items: map<nat, Item>, id: nat, b: ItemBody)
    requires id in items
    ensures GetById(items[id := ApplyBody(items[id], b)], id) == InvItem(200, ApplyBody(items[id], b))
  {
  }

  /** After a delete, reading the item gives 404 and every other item reads as before. */
  lemma DeleteThenGet(items: map<nat, Item>, id: nat, other: int)
    requires id in items
    ensures GetById(items - {id}, id) == InvFail(404, MsgNoEncontrado)
    ensures other != id ==> GetById(items - {id}, other) == GetById(items, other)
  {
  }
}
