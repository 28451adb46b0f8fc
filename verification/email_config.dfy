/** The plain-text serialisers used when an enquiry is mailed: a numbered
    product listing and a summary with counts and a comma-joined list. */
module EmailConfig {
  import opened Optional
  import opened Strings
  import opened Catalog
  import opened ProductSelection

  /** The listing for a missing or empty selection. */
  const NoProducts: string := "No products selected"

  /** One indented detail line: a line break, three spaces, `- field: value`. */
  function Line(field: string, value: string): string {
    "\n   - " + field + ": " + value
  }

  /** The pieces of the entry for the `k`-th item (numbered from 1): number
      and name, then wattage with a trailing W, colour, application and
      quantity on indented lines, an indent, and the notes line. */
  function EntryPieces(k: nat, item: SelectedProduct): seq<string> {
    [ NatToString(k + 1) + ". " + item.productName,
      Line("Wattage", NatToString(item.wattage) + "W"),
      Line("Color", item.colorTemperature),
      Line("Application", item.applicationType),
      Line("Quantity", IntToString(item.quantity)),
      "\n   ",
      NotesLine(item) ]
  }

  /** Notes present and non-empty. */
  predicate HasNotes(item: SelectedProduct) {
    item.notes.Some? && item.notes.value != []
  }

  /** The notes line, empty when there are no notes. */
  function NotesLine(item: SelectedProduct): (r: string)
    ensures r != [] <==> HasNotes(item)
  {
    if HasNotes(item) then "- Notes: " + item.notes.value else ""
  }

  /** The entry for the `k`-th item. */
  function Entry(k: nat, item: SelectedProduct): string {
    Concat(EntryPieces(k, item))
  }

  /** The entry without its notes line. */
  function EntryHead(k: nat, item: SelectedProduct): string {
    Concat(EntryPieces(k, item)[..6])
  }

  function Entries(items: Selection): (es: seq<string>)
    ensures |es| == |items|
    ensures forall k :: 0 <= k < |items| ==> es[k] == Entry(k, items[k])
  {
    seq(|items|, k requires 0 <= k < |items| => Entry(k, items[k]))
  }

  /** `formatProductsForEmail`: the placeholder for no products, else the
      entries joined by blank lines. */
  function FormatProducts(products: Option<Selection>): (r: string)
    ensures r == NoProducts <==> products.None? || products.value == []
  {
    if products.None? || products.value == [] then NoProducts
    else
      var es := Entries(products.value);
      assert Entry(0, products.value[0])[0] == '1';
      Join(es, "\n\n")
  }

  /** The entry starts with its number and the product name, and has the
      wattage followed by W, the colour, the application and the quantity
      lines. */
  lemma EntryMentions(k: nat, item: SelectedProduct)
    ensures var e := Entry(k, item);
      && StartsWith(e, NatToString(k + 1) + ". " + item.productName)
      && Contains(e, Line("Wattage", NatToString(item.wattage) + "W"))
      && Contains(e, Line("Color", item.colorTemperature))
      && Contains(e, Line("Application", item.applicationType))
      && Contains(e, Line("Quantity", IntToString(item.quantity)))
  {
    var ps := EntryPieces(k, item);
    ConcatHasPiece(ps, 1);
    ConcatHasPiece(ps, 2);
    ConcatHasPiece(ps, 3);
    ConcatHasPiece(ps, 4);
  }

  /** An entry ends in a notes line exactly when the item has notes. */
  lemma EntryNotes(k: nat, item: SelectedProduct)
    ensures var e := Entry(k, item); var h := |EntryHead(k, item)|;
      && h <= |e| && e[..h] == EntryHead(k, item)
      && (HasNotes(item) ==> e[h..] == "- Notes: " + item.notes.value)
      && (!HasNotes(item) ==> e == EntryHead(k, item))
  {
    var ps := EntryPieces(k, item);
    ConcatSplit(ps, 6);
    assert ps[6..] == [NotesLine(item)];
    assert Concat(ps[6..]) == NotesLine(item) + Concat([]);
  }

  /** The listing holds the entries in input order, numbered from 1, each
      followed by a blank line unless it is the last. */
  lemma FormatInOrder(items: Selection, k: nat)
    requires k < |items|
    ensures var r := FormatProducts(Some(items)); var o := JoinOffset(Entries(items), "\n\n", k);
      && OccursAt(r, Entry(k, items[k]), o)
      && StartsWith(Entry(k, items[k]), NatToString(k + 1) + ". ")
      && (k + 1 < |items| ==> OccursAt(r, "\n\n", o + |Entry(k, items[k])|))
  {
    JoinPlacesParts(Entries(items), "\n\n", k);
    EntryMentions(k, items[k]);
  }

  // ---------------------------------------------------------------- summary

  /** `generateEmailSummary`'s result. */
  datatype EmailSummary = EmailSummary(totalProducts: nat, totalItems: int, productList: string)

  /** `name (Qty: q)`: the name, then the quantity in parentheses. */
  function ListEntry(item: SelectedProduct): (r: string)
    ensures StartsWith(r, item.productName) && |r| > 0 && r[|r| - 1] == ')'
    ensures Contains(r, " (Qty: " + IntToString(item.quantity) + ")")
  {
    assert OccursAt(item.productName + " (Qty: " + IntToString(item.quantity) + ")",
                    " (Qty: " + IntToString(item.quantity) + ")", |item.productName|);
    item.productName + " (Qty: " + IntToString(item.quantity) + ")"
  }

  /** The entries joined by ", "; empty exactly for an empty list. */
  function ProductList(items: Selection): (r: string)
    ensures r == [] <==> items == []
  {
    var es := seq(|items|, k requires 0 <= k < |items| => ListEntry(items[k]));
    assert items != [] ==> |es[0]| > 0;
    Join(es, ", ")
  }

  /** The product list holds every entry, in order, separated by ", ". */
  lemma ProductListInOrder(items: Selection, k: nat)
    requires k < |items|
    ensures var es := seq(|items|, m requires 0 <= m < |items| => ListEntry(items[m]));
      var o := JoinOffset(es, ", ", k);
      && OccursAt(ProductList(items), ListEntry(items[k]), o)
      && (k + 1 < |items| ==> OccursAt(ProductList(items), ", ", o + |ListEntry(items[k])|))
  {
    var es := seq(|items|, m requires 0 <= m < |items| => ListEntry(items[m]));
    JoinPlacesParts(es, ", ", k);
  }

  /** `generateEmailSummary`: the `reduce` over quantities as a loop from
      the left; the total agrees with the selection store's count. */
  method GenerateSummary(items: Selection) returns (s: EmailSummary)
    ensures s.totalProducts == |items|
    ensures s.totalItems == TotalCount(items)
    ensures s.productList == ProductList(items)
  {
    var sum := 0;
    var i := 0;
    while i < |items|
      invariant 0 <= i <= |items|
      invariant sum == TotalCount(items[..i])
    {
      TotalCountAppend(items[..i], [items[i]]);
      assert items[..i + 1] == items[..i] + [items[i]];
      sum := sum + items[i].quantity;
      i := i + 1;
    }
    assert items[..i] == items;
    s := EmailSummary(|items|, sum, ProductList(items));
  }
}
