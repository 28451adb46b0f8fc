/** The products page's catalogue filter: a case-insensitive literal
    substring test on the name or short description, combined with an
    optional exact category. */
module ProductsPage {
  import opened Optional
  import opened Strings
  import opened Seqs
  import opened Catalog

  /** The two filter controls. `selectedCategory` is `null` as `None`. */
  datatype Filters = Filters(searchQuery: string, selectedCategory: Option<string>)

  /** JavaScript truthiness of the selected category: set and non-empty. */
  predicate CategorySet(c: Option<string>) {
    c.Some? && c.value != []
  }

  /** The lower-cased name or description contains the lower-cased query. */
  predicate MatchesSearch(query: string, p: Product) {
    Contains(Lower(p.name), Lower(query)) || Contains(Lower(p.shortDescription), Lower(query))
  }

  /** Without a category every product passes; with one, only its products. */
  predicate MatchesCategory(c: Option<string>, p: Product) {
    CategorySet(c) ==> p.category == c.value
  }

  predicate Shown(f: Filters, p: Product) {
    MatchesSearch(f.searchQuery, p) && MatchesCategory(f.selectedCategory, p)
  }

  /** `filteredProducts`: the catalogue entries passing both tests, in
      catalogue order, and every such entry. */
  function FilteredProducts(f: Filters, catalog: seq<Product>): (r: seq<Product>)
    ensures IsSubsequence(r, catalog)
    ensures forall i :: 0 <= i < |r| ==> r[i] in catalog && Shown(f, r[i])
    ensures forall i :: 0 <= i < |catalog| && Shown(f, catalog[i]) ==> catalog[i] in r
    ensures multiset(r) <= multiset(catalog)
    ensures forall i :: 0 <= i < |catalog| && Shown(f, catalog[i]) ==>
      multiset(r)[catalog[i]] == multiset(catalog)[catalog[i]]
  {
    var shown := (p: Product) => Shown(f, p);
    FilterCount(catalog, shown);
    Filter(catalog, shown)
  }

  /** `clearFilters`: empty query, no category. */
  function ClearFilters(f: Filters): (r: Filters)
    ensures !HasActiveFilters(r)
  {
    Filters([], None)
  }

  /** `hasActiveFilters`: the truthiness of `searchQuery || selectedCategory`. */
  predicate HasActiveFilters(f: Filters) {
    f.searchQuery != [] || CategorySet(f.selectedCategory)
  }

  /** With no active filter the whole catalogue is shown. */
  lemma InactiveFiltersShowAll(f: Filters, catalog: seq<Product>)
    requires !HasActiveFilters(f)
    ensures FilteredProducts(f, catalog) == catalog
  {
    forall i | 0 <= i < |catalog| ensures Shown(f, catalog[i]) {
      ContainsEmpty(Lower(catalog[i].name));
    }
    FilterAll(catalog, (p: Product) => Shown(f, p));
  }

  /** After clearing, every product is shown. */
  lemma ClearShowsAll(f: Filters, catalog: seq<Product>)
    ensures FilteredProducts(ClearFilters(f), catalog) == catalog
  {
    InactiveFiltersShowAll(ClearFilters(f), catalog);
  }

  /** Every result literally contains the query, lower-cased, in its name or
      description, and has the selected category when one is set. */
  lemma FilteredSound(f: Filters, catalog: seq<Product>)
    ensures forall i :: 0 <= i < |FilteredProducts(f, catalog)| ==>
      var p := FilteredProducts(f, catalog)[i];
      && (exists k :: OccursAt(Lower(p.name), Lower(f.searchQuery), k)
                   || OccursAt(Lower(p.shortDescription), Lower(f.searchQuery), k))
      && (CategorySet(f.selectedCategory) ==> p.category == f.selectedCategory.value)
  {
    var r := FilteredProducts(f, catalog);
    forall i | 0 <= i < |r|
      ensures exists k :: OccursAt(Lower(r[i].name), Lower(f.searchQuery), k)
                       || OccursAt(Lower(r[i].shortDescription), Lower(f.searchQuery), k)
    {
      assert Shown(f, r[i]);
    }
  }

  /** Choosing a category only narrows the results of the same query. */
  lemma CategoryNarrows(query: string, c: string, catalog: seq<Product>)
    ensures forall i :: 0 <= i < |FilteredProducts(Filters(query, Some(c)), catalog)| ==>
      FilteredProducts(Filters(query, Some(c)), catalog)[i] in FilteredProducts(Filters(query, None), catalog)
  {
    var narrow := FilteredProducts(Filters(query, Some(c)), catalog);
    var wide := FilteredProducts(Filters(query, None), catalog);
    forall i | 0 <= i < |narrow| ensures narrow[i] in wide {
      var k :| 0 <= k < |catalog| && catalog[k] == narrow[i];
      assert Shown(Filters(query, None), catalog[k]);
    }
  }
}
