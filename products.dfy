/** The product record and the pure operations on the product collection
    that the store's methods are specified by. */
module Products {
  import opened Wrappers

  /** One medication stock record. An empty `expiryDate` means that no expiry
      date is known (`script.js` tests it for truthiness). */
  datatype Product = Product(
    id: string,
    name: string,
    category: string,
    kind: string,  // the `type` field; `type` is a Dafny keyword
    quantity: int,
    expiryDate: string)

  /** The values of the add/edit form: every field of a product except its id. */
  datatype Draft = Draft(
    name: string,
    category: string,
    kind: string,
    quantity: int,
    expiryDate: string)

  /** `products.findIndex(p => p.id === id)`: the position of the FIRST product
      with that id, or None when no product has it. */
  function IndexOf(ps: seq<Product>, id: string): (r: Option<nat>)
    ensures r.Some? ==> r.value < |ps| && ps[r.value].id == id
    ensures r.Some? ==> forall j :: 0 <= j < r.value ==> ps[j].id != id
    ensures r.None? <==> forall j :: 0 <= j < |ps| ==> ps[j].id != id
  {
    if ps == [] then None
    else if ps[0].id == id then Some(0)
    else match IndexOf(ps[1..], id)
      case None => None
      case Some(i) => Some(i + 1)
  }

  function Max(a: int, b: int): int {
    if a >= b then a else b
  }

  /** The collection after `updateStock(id, amount)`: the first product with
      that id gets quantity max(0, quantity + amount), so its quantity is never
      negative afterwards; every other product, and the order and length, stay
      the same; with no product of that id nothing changes. */
  function AdjustQuantity(ps: seq<Product>, id: string, amount: int): (r: seq<Product>)
    ensures |r| == |ps|
    ensures IndexOf(ps, id).None? ==> r == ps
    ensures IndexOf(ps, id).Some? ==>
      var i := IndexOf(ps, id).value;
      && r[i] == ps[i].(quantity := r[i].quantity)
      && r[i].quantity >= 0
      && (ps[i].quantity + amount >= 0 ==> r[i].quantity == ps[i].quantity + amount)
      && (ps[i].quantity + amount < 0 ==> r[i].quantity == 0)
    ensures forall j :: 0 <= j < |ps| && Some(j) != IndexOf(ps, id) ==> r[j] == ps[j]
  {
    match IndexOf(ps, id)
    case None => ps
    case Some(i) => ps[i := ps[i].(quantity := Max(0, ps[i].quantity + amount))]
  }

  /** The record `{ ...old, ...draft }`: the draft's fields over the old
      record, which keeps only its id. */
  function Overwrite(old_: Product, d: Draft): (p: Product)
    ensures p.id == old_.id
    ensures Draft(p.name, p.category, p.kind, p.quantity, p.expiryDate) == d
  {
    old_.(name := d.name, category := d.category, kind := d.kind,
          quantity := d.quantity, expiryDate := d.expiryDate)
  }

  /** The collection after submitting the form with a non-empty id: the
      first product with that id carries the draft's fields and keeps its id
      and its position; every other product and the length stay the same.
      With no product of that id, `findIndex` gives -1 and the write lands on
      the array's `"-1"` property, which no iteration, length or JSON
      serialisation sees: the collection is unchanged. */
  function EditRecord(ps: seq<Product>, id: string, d: Draft): (r: seq<Product>)
    ensures |r| == |ps|
    ensures IndexOf(ps, id).None? ==> r == ps
    ensures IndexOf(ps, id).Some? ==>
      var i := IndexOf(ps, id).value;
      && r[i].id == id
      && Draft(r[i].name, r[i].category, r[i].kind, r[i].quantity, r[i].expiryDate) == d
    ensures forall j :: 0 <= j < |ps| && Some(j) != IndexOf(ps, id) ==> r[j] == ps[j]
  {
    match IndexOf(ps, id)
    case None => ps
    case Some(i) => ps[i := Overwrite(ps[i], d)]
  }

  /** The record that the form creates for a new product, with the id the
      caller minted. */
  function NewProduct(d: Draft, freshId: string): (p: Product)
    ensures p.id == freshId
    ensures Draft(p.name, p.category, p.kind, p.quantity, p.expiryDate) == d
  {
    Product(freshId, d.name, d.category, d.kind, d.quantity, d.expiryDate)
  }

  /** Adjusting by a positive amount and then by the same negative amount
      restores the collection whenever the product's quantity was not negative. */
  lemma AdjustUndo(ps: seq<Product>, id: string, amount: nat)
    requires IndexOf(ps, id).Some? ==> ps[IndexOf(ps, id).value].quantity >= 0
    ensures AdjustQuantity(AdjustQuantity(ps, id, amount), id, -(amount as int)) == ps
  {
    if IndexOf(ps, id).Some? {
      var i := IndexOf(ps, id).value;
      var q := ps[i].quantity;
      var once := ps[i := ps[i].(quantity := q + amount)];
      AdjustAt(ps, id, amount, i);
      assert Max(0, q + amount) == q + amount;
      assert AdjustQuantity(ps, id, amount) == once;
      assert forall j :: 0 <= j < |ps| ==> ps[j].id == once[j].id;
      IndexOfSameIds(ps, once, id);
      AdjustAt(once, id, -(amount as int), i);
      assert Max(0, once[i].quantity + -(amount as int)) == q;
      assert once[i := once[i].(quantity := q)] == ps;
    }
  }

  lemma AdjustAt(ps: seq<Product>, id: string, amount: int, i: nat)
    requires IndexOf(ps, id) == Some(i)
    ensures AdjustQuantity(ps, id, amount) == ps[i := ps[i].(quantity := Max(0, ps[i].quantity + amount))]
  {
  }

  /** The position of an id depends only on the ids of the products. */
  lemma {:induction false} IndexOfSameIds(ps: seq<Product>, qs: seq<Product>, id: string)
    requires |ps| == |qs|
    requires forall j :: 0 <= j < |ps| ==> ps[j].id == qs[j].id
    ensures IndexOf(ps, id) == IndexOf(qs, id)
  {
    if ps != [] && ps[0].id != id {
      IndexOfSameIds(ps[1..], qs[1..], id);
    }
  }

  /** No product has a negative stock. */
  predicate NoNegativeStock(ps: seq<Product>) {
    forall k :: 0 <= k < |ps| ==> ps[k].quantity >= 0
  }

  /** The stock buttons never make a stock negative: they keep a collection
      without negative stock so. */
  lemma AdjustKeepsNoNegativeStock(ps: seq<Product>, id: string, amount: int)
    requires NoNegativeStock(ps)
    ensures NoNegativeStock(AdjustQuantity(ps, id, amount))
  {
  }

  /** Editing an existing product keeps a collection without negative stock
      so exactly when the quantity it submits is not negative. */
  lemma EditKeepsNoNegativeStock(ps: seq<Product>, id: string, d: Draft)
    requires NoNegativeStock(ps) && IndexOf(ps, id).Some?
    ensures NoNegativeStock(EditRecord(ps, id, d)) <==> d.quantity >= 0
  {
    var i := IndexOf(ps, id).value;
    assert EditRecord(ps, id, d)[i].quantity == d.quantity;
  }

  /** Adding keeps a collection without negative stock so exactly when the
      new product's quantity is not negative. */
  lemma AddKeepsNoNegativeStock(ps: seq<Product>, d: Draft, freshId: string)
    requires NoNegativeStock(ps)
    ensures NoNegativeStock(ps + [NewProduct(d, freshId)]) <==> d.quantity >= 0
  {
    assert (ps + [NewProduct(d, freshId)])[|ps|] == NewProduct(d, freshId);
  }

  /** Adjusting a stock changes no id, so the same product is found again. */
  lemma AdjustKeepsIds(ps: seq<Product>, id: string, amount: int, other: string)
    ensures IndexOf(AdjustQuantity(ps, id, amount), other) == IndexOf(ps, other)
  {
    IndexOfSameIds(ps, AdjustQuantity(ps, id, amount), other);
  }
}
