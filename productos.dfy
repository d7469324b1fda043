/**
 * The product handlers of Backend/src/controllers/producto.ts: create,
 * update and delete a product.
 *
 * All three columns are NOT NULL, so a create with a missing field fails in
 * the database, and the handler's catch answers 401. The update replaces the
 * name only with a truthy value (`nombre || old`) but the price and the
 * stock with any present value (`x ?? old`), 0 included. Prices are
 * modelled as integers.
 */
module Productos {
  import opened Wrappers

  datatype Producto = Producto(id: nat, nombre: string, precio: int, stock: int)

  datatype ProductoBody = ProductoBody(nombre: Option<string>, precio: Option<int>, stock: Option<int>)

  datatype ProdReply =
    | ProdFail(status: nat, message: string)
    | ProdCreated(message: string, producto: Producto)
    | ProdUpdated(producto: Producto)
    | ProdDeleted(message: string)

  const MsgCreado: string := "prodcuto creado correctamente"
  const MsgErrorCrear: string := "error al obtener, intente nuevamente"
  const MsgNoEncontrado: string := "producto no encontrado"
  const MsgEliminado: string := "eliminado satisfactoriamente"

  /** The product after `updateproductos`' three assignments. */
  function ApplyBody(p: Producto, b: ProductoBody): Producto {
    p.(nombre := if b.nombre.Some? && b.nombre.value != "" then b.nombre.value else p.nombre,
       precio := b.precio.GetOr(p.precio),
       stock := b.stock.GetOr(p.stock))
  }

  /** A price or stock of 0 is written; an empty name keeps the old one. */
  lemma ZeroPriceAndStockStored(p: Producto)
    ensures ApplyBody(p, ProductoBody(Some(""), Some(0), Some(0))) == p.(precio := 0, stock := 0)
  {
  }

  /** An empty body changes nothing, and the same update twice is the same as once. */
  lemma ApplyBodyNeutralAndIdempotent(p: Producto, b: ProductoBody)
    ensures ApplyBody(p, ProductoBody(None, None, None)) == p
    ensures ApplyBody(ApplyBody(p, b), b) == ApplyBody(p, b)
  {
  }

  class ProductTable {
    var productos: map<nat, Producto>
    var nextId: nat

    /** Every product is stored under its own id, below the next id to hand out. */
    ghost predicate Valid()
      reads this
    {
      nextId >= 1 && forall id :: id in productos ==> 1 <= id < nextId && productos[id].id == id
    }

    constructor ()
      ensures Valid() && productos == map[]
    {
      productos := map[];
      nextId := 1;
    }

    /** `createProducto`: a missing field breaks a NOT NULL column and nothing is stored. */
    method CreateProducto(b: ProductoBody) returns (reply: ProdReply)
      requires Valid()
      modifies this
      ensures Valid()
      ensures b.nombre.None? || b.precio.None? || b.stock.None? ==>
        reply == ProdFail(401, MsgErrorCrear) && productos == old(productos) && nextId == old(nextId)
      ensures b.nombre.Some? && b.precio.Some? && b.stock.Some? ==>
        var p := Producto(old(nextId), b.nombre.value, b.precio.value, b.stock.value);
        && old(nextId) !in old(productos)
        && productos == old(productos)[p.id := p] && nextId == old(nextId) + 1
        && reply == ProdCreated(MsgCreado, p)
    {
      if b.nombre.None? || b.precio.None? || b.stock.None? {
        return ProdFail(401, MsgErrorCrear);
      }
      var p := Producto(nextId, b.nombre.value, b.precio.value, b.stock.value);
      productos := productos[p.id := p];
      nextId := nextId + 1;
      reply := ProdCreated(MsgCreado, p);
    }

    /** `updateproductos`: 404 for an unknown id; otherwise the patched product is saved and returned. */
    method UpdateProductos(id: int, b: ProductoBody) returns (reply: ProdReply)
      requires Valid()
      modifies this
      ensures Valid() && nextId == old(nextId)
      ensures id < 0 || id !in old(productos) ==> reply == ProdFail(404, MsgNoEncontrado) && productos == old(productos)
      ensures id >= 0 && id in old(productos) ==>
        var updated := ApplyBody(old(productos)[id], b);
        reply == ProdUpdated(updated) && productos == old(productos)[id := updated]
    {
      if id < 0 || id !in productos {
        return ProdFail(404, MsgNoEncontrado);
      }
      var producto := ApplyBody(productos[id], b);
      productos := productos[id := producto];
      reply := ProdUpdated(producto);
    }

    /** `deleteProductos`: 404 for an unknown id; otherwise exactly that product is removed. */
    method DeleteProductos(id: int) returns (reply: ProdReply)
      requires Valid()
      modifies this
      ensures Valid() && nextId == old(nextId)
      ensures id < 0 || id !in old(productos) ==> reply == ProdFail(404, MsgNoEncontrado) && productos == old(productos)
      ensures id >= 0 && id in old(productos) ==>
        reply == ProdDeleted(MsgEliminado) && productos == old(productos) - {id as nat}
    {
      if id < 0 || id !in productos {
        return ProdFail(404, MsgNoEncontrado);
      }
      productos := productos - {id as nat};
      reply := ProdDeleted(MsgEliminado);
    }
  }
}
