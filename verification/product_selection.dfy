/** The enquiry selection store: the list of configured products the
    visitor is collecting for a quote, with add, remove, update, clear and a
    total item count. */
module ProductSelection {
  import opened Optional
  import opened Seqs
  import opened Catalog

  type Selection = seq<SelectedProduct>

  /** `addProduct`: the item goes at the end; earlier entries are untouched. */
  function Add(sel: Selection, item: SelectedProduct): (r: Selection)
    ensures |r| == |sel| + 1 && r[..|sel|] == sel && r[|sel|] == item
  {
    sel + [item]
  }

  /** `removeProduct`: exactly the entries with `id` are dropped, the rest
      keep their order. */
  function Remove(sel: Selection, id: string): (r: Selection)
    ensures IsSubsequence(r, sel)
    ensures forall i :: 0 <= i < |r| ==> r[i].selectionId != id && r[i] in sel
    ensures forall i :: 0 <= i < |sel| && sel[i].selectionId != id ==> sel[i] in r
    ensures multiset(r) <= multiset(sel)
    ensures forall i :: 0 <= i < |sel| && sel[i].selectionId != id ==> multiset(r)[sel[i]] == multiset(sel)[sel[i]]
    ensures |r| + |WithId(sel, id)| == |sel|
  {
    var keep := (p: SelectedProduct) => p.selectionId != id;
    FilterCount(sel, keep);
    FilterPartition(sel, keep, (p: SelectedProduct) => p.selectionId == id);
    Filter(sel, keep)
  }

  /** The entries `removeProduct(id)` drops. */
  function WithId(sel: Selection, id: string): (r: Selection)
    ensures IsSubsequence(r, sel)
    ensures forall i :: 0 <= i < |r| ==> r[i].selectionId == id && r[i] in sel
    ensures forall i :: 0 <= i < |sel| && sel[i].selectionId == id ==> sel[i] in r
    ensures multiset(r) <= multiset(sel)
    ensures forall i :: 0 <= i < |sel| && sel[i].selectionId == id ==> multiset(r)[sel[i]] == multiset(sel)[sel[i]]
  {
    var drop := (p: SelectedProduct) => p.selectionId == id;
    FilterCount(sel, drop);
    Filter(sel, drop)
  }

  /** A `Partial<SelectedProduct>`: `None` for a key that is not present.
      `notes` may be present with the value `undefined`, hence the nesting. */
  datatype Patch = Patch(
    productId: Option<string>,
    productName: Option<string>,
    wattage: Option<nat>,
    colorTemperature: Option<string>,
    applicationType: Option<string>,
    quantity: Option<int>,
    notes: Option<Option<string>>,
    selectionId: Option<string>)

  /** The patch with no keys. */
  const NoChange: Patch := Patch(None, None, None, None, None, None, None, None)

  /** The patch `{ quantity: q }`. */
  function QuantityPatch(q: int): Patch {
    NoChange.(quantity := Some(q))
  }

  /** `{ ...p, ...updates }`: present keys overwrite, absent keys keep. */
  function Apply(p: SelectedProduct, u: Patch): SelectedProduct {
    SelectedProduct(
      u.productId.GetOr(p.productId),
      u.productName.GetOr(p.productName),
      u.wattage.GetOr(p.wattage),
      u.colorTemperature.GetOr(p.colorTemperature),
      u.applicationType.GetOr(p.applicationType),
      u.quantity.GetOr(p.quantity),
      u.notes.GetOr(p.notes),
      u.selectionId.GetOr(p.selectionId))
  }

  /** A quantity patch changes the quantity and nothing else. */
  lemma ApplyQuantityPatch(p: SelectedProduct, q: int)
    ensures Apply(p, QuantityPatch(q)) == p.(quantity := q)
  {
  }

  /** Applying the same patch twice is the same as once, and the empty
      patch changes nothing. */
  lemma ApplyIdempotent(p: SelectedProduct, u: Patch)
    ensures Apply(Apply(p, u), u) == Apply(p, u)
    ensures Apply(p, NoChange) == p
  {
  }

  /** `updateProduct`: same length and order; entries with `id` get the
      patch, all others are unchanged. */
  function Update(sel: Selection, id: string, u: Patch): (r: Selection)
    ensures |r| == |sel|
    ensures forall i :: 0 <= i < |r| && sel[i].selectionId != id ==> r[i] == sel[i]
    ensures forall i :: 0 <= i < |r| && sel[i].selectionId == id ==> r[i] == Apply(sel[i], u)
  {
    seq(|sel|, i requires 0 <= i < |sel| => if sel[i].selectionId == id then Apply(sel[i], u) else sel[i])
  }

  /** A quantity patch through `updateProduct` sets the quantity of the
      entries with `id` and changes nothing else about them. */
  lemma UpdateQuantity(sel: Selection, id: string, q: int)
    ensures forall i :: 0 <= i < |sel| && sel[i].selectionId == id ==>
      Update(sel, id, QuantityPatch(q))[i] == sel[i].(quantity := q)
  {
    forall i | 0 <= i < |sel| && sel[i].selectionId == id
      ensures Update(sel, id, QuantityPatch(q))[i] == sel[i].(quantity := q)
    {
      ApplyQuantityPatch(sel[i], q);
    }
  }

  /** `clearSelection`. */
  function Clear(): (r: Selection)
    ensures |r| == 0 && TotalCount(r) == 0
  {
    []
  }

  /** `getTotalCount`: the sum of the quantities; when every entry has at
      least one unit, there are at least as many units as entries. */
  function TotalCount(sel: Selection): (n: int)
    ensures (forall i :: 0 <= i < |sel| ==> sel[i].quantity >= 1) ==> n >= |sel|
  {
    if sel == [] then 0 else sel[0].quantity + TotalCount(sel[1..])
  }

  lemma {:induction false} TotalCountAppend(a: Selection, b: Selection)
    ensures TotalCount(a + b) == TotalCount(a) + TotalCount(b)
    decreases |a|
  {
    if a != [] {
      TotalCountAppend(a[1..], b);
      assert (a + b)[0] == a[0];
      assert (a + b)[1..] == a[1..] + b;
    } else {
      assert a + b == b;
    }
  }

  /** Adding an item raises the total by its quantity. */
  lemma AddRaisesTotal(sel: Selection, item: SelectedProduct)
    ensures TotalCount(Add(sel, item)) == TotalCount(sel) + item.quantity
  {
    TotalCountAppend(sel, [item]);
  }

  /** Removing an id lowers the total by the quantities of the removed
      entries. */
  lemma {:induction false} RemoveLowersTotal(sel: Selection, id: string)
    ensures TotalCount(Remove(sel, id)) == TotalCount(sel) - TotalCount(WithId(sel, id))
    decreases |sel|
  {
    if sel != [] {
      RemoveLowersTotal(sel[1..], id);
    }
  }

  /** Removing an id nobody has leaves the list as it was. */
  lemma RemoveUnknown(sel: Selection, id: string)
    requires forall i :: 0 <= i < |sel| ==> sel[i].selectionId != id
    ensures Remove(sel, id) == sel && WithId(sel, id) == []
  {
    FilterAll(sel, (p: SelectedProduct) => p.selectionId != id);
  }

  /** Updating an id nobody has leaves the list as it was. */
  lemma UpdateUnknown(sel: Selection, id: string, u: Patch)
    requires forall i :: 0 <= i < |sel| ==> sel[i].selectionId != id
    ensures Update(sel, id, u) == sel
  {
  }

  /** A patch without a quantity keeps the total. */
  lemma {:induction false} UpdateKeepsTotal(sel: Selection, id: string, u: Patch)
    requires u.quantity.None?
    ensures TotalCount(Update(sel, id, u)) == TotalCount(sel)
    decreases |sel|
  {
    if sel != [] {
      UpdateKeepsTotal(sel[1..], id, u);
      assert Update(sel, id, u)[1..] == Update(sel[1..], id, u);
    }
  }

  /** Removing an id after adding an entry with that id drops it again. */
  lemma RemoveAfterAdd(sel: Selection, item: SelectedProduct)
    requires forall i :: 0 <= i < |sel| ==> sel[i].selectionId != item.selectionId
    ensures Remove(Add(sel, item), item.selectionId) == sel
  {
    RemoveUnknown(sel, item.selectionId);
    FilterAppend(sel, [item], (p: SelectedProduct) => p.selectionId != item.selectionId);
  }
}
