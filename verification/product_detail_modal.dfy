/** The product detail dialog's configuration: the chosen wattage, colour
    temperature and application, the quantity stepper, the notes, and the
    selection record it adds to the store. */
module ProductDetailModal {
  import opened Optional
  import opened Strings
  import opened Catalog
  import opened ProductSelection

  datatype ModalState = ModalState(
    selectedWattage: nat,
    selectedColorTemp: string,
    selectedApplication: string,
    quantity: int,
    notes: string,
    isAdded: bool)

  /** The dialog's invariant: the choices come from the product's options
      and the quantity is at least 1. */
  predicate Valid(p: Product, s: ModalState) {
    && s.selectedWattage in p.wattageOptions
    && s.selectedColorTemp in p.colorTemperatures
    && s.selectedApplication in p.applicationTypes
    && s.quantity >= 1
  }

  /** The configuration on the dialog's first mount: each option list's
      first entry, quantity 1, no notes. */
  function Initial(p: Product): (s: ModalState)
    requires p.wattageOptions != [] && p.colorTemperatures != [] && p.applicationTypes != []
    ensures Valid(p, s) && s.quantity == 1 && s.notes == [] && !s.isAdded
    ensures s.selectedWattage == p.wattageOptions[0]
    ensures s.selectedColorTemp == p.colorTemperatures[0] && s.selectedApplication == p.applicationTypes[0]
  {
    ModalState(p.wattageOptions[0], p.colorTemperatures[0], p.applicationTypes[0], 1, [], false)
  }

  /** Picking an option from one of the selects. */
  function SelectOptions(p: Product, s: ModalState, wattage: nat, colorTemp: string, application: string): (r: ModalState)
    requires wattage in p.wattageOptions && colorTemp in p.colorTemperatures && application in p.applicationTypes
    ensures Valid(p, s) ==> Valid(p, r)
  {
    s.(selectedWattage := wattage, selectedColorTemp := colorTemp, selectedApplication := application)
  }

  /** `handleQuantityChange(delta)`: the quantity moves by `delta` but never
      below 1; nothing else changes. */
  function ChangeQuantity(s: ModalState, delta: int): (r: ModalState)
    ensures r.quantity >= 1 && r == s.(quantity := r.quantity)
    ensures s.quantity + delta >= 1 ==> r.quantity == s.quantity + delta
    ensures s.quantity + delta < 1 ==> r.quantity == 1
  {
    s.(quantity := if s.quantity + delta >= 1 then s.quantity + delta else 1)
  }

  /** The minus button is disabled at quantity 1 or less. */
  predicate DecrementDisabled(s: ModalState) {
    s.quantity <= 1
  }

  /** For a valid configuration the minus button is disabled exactly when
      pressing it would change nothing. */
  lemma DecrementDisabledWhenNoEffect(p: Product, s: ModalState)
    requires Valid(p, s)
    ensures DecrementDisabled(s) <==> ChangeQuantity(s, -1) == s
  {
    if !DecrementDisabled(s) {
      assert ChangeQuantity(s, -1).quantity != s.quantity;
    }
  }

  /** The `selectionId`: the product id, a hyphen and the timestamp. */
  function SelectionId(productId: string, now: nat): (id: string)
    ensures |id| > |productId| + 1 && StartsWith(id, productId + "-")
    ensures forall i :: |productId| + 1 <= i < |id| ==> IsDigit(id[i])
  {
    productId + "-" + NatToString(now)
  }

  /** The timestamp can be read back from the digits after the hyphen. */
  lemma SelectionIdTimestamp(productId: string, now: nat)
    ensures ParseNat(SelectionId(productId, now)[|productId| + 1..]) == now
  {
    assert SelectionId(productId, now)[|productId| + 1..] == NatToString(now);
    ParseNatToString(now);
  }

  /** Two additions of one product at different times get different ids. */
  lemma SelectionIdsDiffer(productId: string, t1: nat, t2: nat)
    requires t1 != t2
    ensures SelectionId(productId, t1) != SelectionId(productId, t2)
  {
    SelectionIdTimestamp(productId, t1);
    SelectionIdTimestamp(productId, t2);
  }

  /** The record `handleAddToSelection` adds: the product's id and name and
      the current configuration; empty notes become `undefined`. */
  function Record(p: Product, s: ModalState, now: nat): (item: SelectedProduct)
    ensures item.productId == p.id && item.productName == p.name
    ensures item.wattage == s.selectedWattage && item.colorTemperature == s.selectedColorTemp
    ensures item.applicationType == s.selectedApplication && item.quantity == s.quantity
    ensures item.notes.None? <==> s.notes == []
    ensures item.notes.Some? ==> item.notes.value == s.notes
    ensures item.selectionId == SelectionId(p.id, now)
  {
    SelectedProduct(p.id, p.name, s.selectedWattage, s.selectedColorTemp, s.selectedApplication,
                    s.quantity, if s.notes == [] then None else Some(s.notes), SelectionId(p.id, now))
  }

  /** The store and the dialog after a click on "Add to selection". */
  datatype Added = Added(store: Selection, dialog: ModalState)

  /** `handleAddToSelection`: appends the record and marks the dialog as
      added; the configuration stays until the reset. */
  function AddToSelection(store: Selection, p: Product, s: ModalState, now: nat): (r: Added)
    ensures r.store == Add(store, Record(p, s, now))
    ensures r.dialog == s.(isAdded := true) && AddDisabled(r.dialog)
  {
    Added(Add(store, Record(p, s, now)), s.(isAdded := true))
  }

  /** The delayed reset after an addition: quantity back to 1, notes
      cleared, adding enabled again; the chosen options stay. */
  function AfterAddReset(s: ModalState): (r: ModalState)
    ensures r.quantity == 1 && r.notes == [] && !AddDisabled(r)
    ensures r.selectedWattage == s.selectedWattage && r.selectedColorTemp == s.selectedColorTemp
    ensures r.selectedApplication == s.selectedApplication
  {
    s.(isAdded := false, quantity := 1, notes := [])
  }

  /** The add button is disabled while the added flag is set. */
  predicate AddDisabled(s: ModalState) {
    s.isAdded
  }

  /** Adding and the reset after it keep the invariant, and an addition
      raises the store's total by the configured quantity. */
  lemma AddThenResetKeepsValid(store: Selection, p: Product, s: ModalState, now: nat)
    requires Valid(p, s)
    ensures var a := AddToSelection(store, p, s, now);
      && Valid(p, a.dialog) && Valid(p, AfterAddReset(a.dialog))
      && TotalCount(a.store) == TotalCount(store) + s.quantity
  {
    AddRaisesTotal(store, Record(p, s, now));
  }

  // ------------------------------------------------------ switching product

  /** A click in the related strip: the page swaps the `product` prop, but
      the same dialog instance stays mounted and nothing resets its state,
      so the old configuration is carried over to `next`. */
  function SwitchProduct(s: ModalState, next: Product): (r: ModalState)
    ensures r.selectedWattage == s.selectedWattage && r.selectedColorTemp == s.selectedColorTemp
    ensures r.selectedApplication == s.selectedApplication
    ensures r.quantity == s.quantity && r.notes == s.notes && r.isAdded == s.isAdded
  {
    s
  }

  /** The carried-over configuration survives a switch only when the new
      product offers all three chosen options. */
  lemma SwitchValidIff(p: Product, s: ModalState, next: Product)
    requires Valid(p, s)
    ensures Valid(next, SwitchProduct(s, next)) <==>
      && s.selectedWattage in next.wattageOptions
      && s.selectedColorTemp in next.colorTemperatures
      && s.selectedApplication in next.applicationTypes
  {
  }

  /** Switching from a 9 W-only product to a 12 W-only one keeps 9 W, so the
      next addition records the new product's id with a wattage it does
      not offer. */
  lemma SwitchRecordsUnofferedWattage(now: nat)
    ensures var p1 := Product("a", "A", "bulbs", "", [], [9], ["warm"], ["home"], true);
      var p2 := Product("b", "B", "bulbs", "", [], [12], ["warm"], ["home"], true);
      var s := SwitchProduct(Initial(p1), p2);
      && Valid(p1, Initial(p1)) && !Valid(p2, s)
      && Record(p2, s, now).productId == p2.id
      && Record(p2, s, now).wattage !in p2.wattageOptions
  {
  }

  /** Switching as evidently intended: the dialog starts over on the new
      product's first options. */
  function SwitchProductFresh(s: ModalState, next: Product): (r: ModalState)
    requires next.wattageOptions != [] && next.colorTemperatures != [] && next.applicationTypes != []
    ensures Valid(next, r) && r.quantity == 1 && r.notes == [] && !r.isAdded
  {
    Initial(next)
  }

  /** After an intended switch, the next addition records only options the
      new product offers. */
  lemma FreshSwitchRecordsOffered(s: ModalState, next: Product, now: nat)
    requires next.wattageOptions != [] && next.colorTemperatures != [] && next.applicationTypes != []
    ensures var item := Record(next, SwitchProductFresh(s, next), now);
      && item.productId == next.id
      && item.wattage in next.wattageOptions
      && item.colorTemperature in next.colorTemperatures
      && item.applicationType in next.applicationTypes
  {
  }
}
