/** The enquiry summary page: the quantity stepper on each selected line,
    and the choice between the empty state and the summary with its
    pluralised counters. */
module EnquirySummary {
  import opened Optional
  import opened Strings
  import opened Catalog
  import opened ProductSelection

  /** `selectedProducts.find(p => p.selectionId === id)`: the first entry
      with `id`, if any. */
  function Find(sel: Selection, id: string): (r: Option<SelectedProduct>)
    ensures r.None? <==> forall i :: 0 <= i < |sel| ==> sel[i].selectionId != id
    ensures r.Some? ==> exists i :: 0 <= i < |sel| && FirstWithId(sel, id, i) && sel[i] == r.value
  {
    if sel == [] then None
    else if sel[0].selectionId == id then Some(sel[0])
    else
      var rest := Find(sel[1..], id);
      if rest.Some? then
        var i :| 0 <= i < |sel[1..]| && FirstWithId(sel[1..], id, i) && sel[1..][i] == rest.value;
        assert FirstWithId(sel, id, i + 1);
        rest
      else rest
  }

  /** `sel[i]` is the first entry carrying `id`. */
  predicate FirstWithId(sel: Selection, id: string, i: int) {
    0 <= i < |sel| && sel[i].selectionId == id
    && forall j :: 0 <= j < i ==> sel[j].selectionId != id
  }

  function Max(a: int, b: int): int {
    if a >= b then a else b
  }

  /** `handleQuantityChange(id, delta)`: the new quantity is taken from the
      first entry with `id`, clamped to at least 1, and written into every
      entry with `id` through `updateProduct`; an unknown id changes nothing. */
  function HandleQuantityChange(sel: Selection, id: string, delta: int): (r: Selection)
    ensures |r| == |sel|
    ensures Find(sel, id).None? ==> r == sel
    ensures forall i :: 0 <= i < |sel| && sel[i].selectionId != id ==> r[i] == sel[i]
  {
    match Find(sel, id)
    case None => sel
    case Some(product) => Update(sel, id, QuantityPatch(Max(1, product.quantity + delta)))
  }

  /** `find` returns the first entry with `id`. */
  lemma FindFirst(sel: Selection, id: string, i: int)
    requires FirstWithId(sel, id, i)
    ensures Find(sel, id) == Some(sel[i])
  {
    var r := Find(sel, id);
    var j :| 0 <= j < |sel| && FirstWithId(sel, id, j) && sel[j] == r.value;
    assert j == i;
  }

  /** Given the first entry with `id`, every entry with `id` gets that
      entry's quantity plus `delta`, clamped to at least 1, and keeps every
      other field. */
  lemma QuantityChangeSets(sel: Selection, id: string, delta: int, first: int)
    requires FirstWithId(sel, id, first)
    ensures forall i :: 0 <= i < |sel| && sel[i].selectionId == id ==>
      HandleQuantityChange(sel, id, delta)[i].quantity >= 1
    ensures var r := HandleQuantityChange(sel, id, delta);
      forall i :: 0 <= i < |sel| && sel[i].selectionId == id ==>
        r[i] == sel[i].(quantity := Max(1, sel[first].quantity + delta))
  {
    FindFirst(sel, id, first);
    UpdateQuantity(sel, id, Max(1, sel[first].quantity + delta));
  }

  /** Stepping a line up and then down restores it, for a line whose
      quantity is at least 1 and that is the first with its id. */
  lemma StepperRoundTrip(sel: Selection, i: int)
    requires 0 <= i < |sel| && FirstWithId(sel, sel[i].selectionId, i) && sel[i].quantity >= 1
    ensures var id := sel[i].selectionId;
      HandleQuantityChange(HandleQuantityChange(sel, id, 1), id, -1)[i] == sel[i]
  {
    var id := sel[i].selectionId;
    var up := HandleQuantityChange(sel, id, 1);
    assert Find(sel, id).value == sel[i];
    QuantityChangeSets(sel, id, 1, i);
    assert FirstWithId(up, id, i);
    assert Find(up, id).value == up[i];
    QuantityChangeSets(up, id, -1, i);
  }

  /** What the page renders. */
  datatype View = EmptyState | Summary(productsBadge: string, itemsBadge: string)

  /** `{n} {word}` followed by 's' unless `n` is exactly 1. */
  function Counter(n: int, word: string): string {
    IntToString(n) + " " + word + (if n != 1 then "s" else "")
  }

  /** The page for a selection: the empty state for no entries, else the
      two counters. */
  function Render(sel: Selection): (v: View)
    ensures v.EmptyState? <==> sel == []
  {
    if |sel| == 0 then EmptyState
    else Summary(Counter(|sel|, "Product"), Counter(TotalCount(sel), "Total Item"))
  }

  /** A counter word not ending in 's' ends in 's' exactly when the count
      is not 1. */
  lemma CounterPlural(n: int, word: string)
    requires word != [] && word[|word| - 1] != 's'
    ensures var c := Counter(n, word); c[|c| - 1] == 's' <==> n != 1
  {
  }

  /** Both counters of the summary are pluralised unless their count is 1. */
  lemma SummaryPlurals(sel: Selection)
    requires sel != []
    ensures var v := Render(sel);
      && (v.productsBadge[|v.productsBadge| - 1] == 's' <==> |sel| != 1)
      && (v.itemsBadge[|v.itemsBadge| - 1] == 's' <==> TotalCount(sel) != 1)
  {
    CounterPlural(|sel|, "Product");
    CounterPlural(TotalCount(sel), "Total Item");
  }
}
