/** The "related products" strip of the product dialog: up to four other
    products, those of the same category first, topped up from the other
    categories. */
module RelatedProducts {
  import opened Seqs
  import opened Catalog

  /** At most this many related products are shown. */
  const Shown: nat := 4

  /** Other products of the current product's category, in catalogue order. */
  function SameCategory(current: Product, catalog: seq<Product>): (r: seq<Product>)
    ensures IsSubsequence(r, catalog)
    ensures forall i :: 0 <= i < |r| ==> r[i].category == current.category && r[i].id != current.id
    ensures forall i :: 0 <= i < |catalog| && catalog[i].category == current.category && catalog[i].id != current.id ==>
      catalog[i] in r
  {
    Filter(catalog, (p: Product) => p.category == current.category && p.id != current.id)
  }

  /** Other products of other categories, in catalogue order. */
  function OtherCategory(current: Product, catalog: seq<Product>): (r: seq<Product>)
    ensures IsSubsequence(r, catalog)
    ensures forall i :: 0 <= i < |r| ==> r[i].category != current.category && r[i].id != current.id
    ensures forall i :: 0 <= i < |catalog| && catalog[i].category != current.category && catalog[i].id != current.id ==>
      catalog[i] in r
  {
    Filter(catalog, (p: Product) => p.category != current.category && p.id != current.id)
  }

  /** Every catalogue product except the current one. */
  function NotCurrent(current: Product, catalog: seq<Product>): seq<Product> {
    Filter(catalog, (p: Product) => p.id != current.id)
  }

  /** `relatedProducts`: the first four same-category products, and when
      there are fewer, as many other-category products as make up four. */
  function Related(current: Product, catalog: seq<Product>): (r: seq<Product>)
    ensures |r| <= Shown
    ensures forall i :: 0 <= i < |r| ==> r[i].id != current.id && r[i] in catalog
    ensures forall i, j :: 0 <= i < j < |r| && r[j].category == current.category ==>
      r[i].category == current.category
    ensures var k := if |SameCategory(current, catalog)| < Shown then |SameCategory(current, catalog)| else Shown;
      && k <= |r| && |r| - k <= |OtherCategory(current, catalog)|
      && r[..k] == SameCategory(current, catalog)[..k]
      && r[k..] == OtherCategory(current, catalog)[..|r| - k]
  {
    var same := Take(SameCategory(current, catalog), Shown);
    assert same == SameCategory(current, catalog)[..|same|];
    if |same| < Shown then
      var other := Take(OtherCategory(current, catalog), Shown - |same|);
      assert other == OtherCategory(current, catalog)[..|other|];
      assert (same + other)[..|same|] == same && (same + other)[|same|..] == other;
      same + other
    else same
  }

  /** Each group holds every product it admits as often as the catalogue
      does, and nothing else. */
  lemma GroupsKeepCounts(current: Product, catalog: seq<Product>)
    ensures multiset(SameCategory(current, catalog)) <= multiset(catalog)
    ensures multiset(OtherCategory(current, catalog)) <= multiset(catalog)
    ensures forall i :: 0 <= i < |catalog| && catalog[i].category == current.category && catalog[i].id != current.id ==>
      multiset(SameCategory(current, catalog))[catalog[i]] == multiset(catalog)[catalog[i]]
    ensures forall i :: 0 <= i < |catalog| && catalog[i].category != current.category && catalog[i].id != current.id ==>
      multiset(OtherCategory(current, catalog))[catalog[i]] == multiset(catalog)[catalog[i]]
  {
    FilterCount(catalog, (p: Product) => p.category == current.category && p.id != current.id);
    FilterCount(catalog, (p: Product) => p.category != current.category && p.id != current.id);
  }

  /** The two groups split the products other than the current one. */
  lemma {:induction false} GroupsPartition(current: Product, catalog: seq<Product>)
    ensures |SameCategory(current, catalog)| + |OtherCategory(current, catalog)| == |NotCurrent(current, catalog)|
    decreases |catalog|
  {
    if catalog != [] {
      GroupsPartition(current, catalog[1..]);
    }
  }

  /** The strip shows min(4, number of other products) entries. */
  lemma RelatedLength(current: Product, catalog: seq<Product>)
    ensures var n := |NotCurrent(current, catalog)|;
      |Related(current, catalog)| == if n < Shown then n else Shown
  {
    GroupsPartition(current, catalog);
  }

  /** The strip is empty, and renders nothing, exactly when the catalogue
      holds no other product. */
  lemma RelatedEmptyIff(current: Product, catalog: seq<Product>)
    ensures Related(current, catalog) == [] <==>
      forall i :: 0 <= i < |catalog| ==> catalog[i].id == current.id
  {
    RelatedLength(current, catalog);
    var others := NotCurrent(current, catalog);
    if others != [] {
      assert others[0] in catalog;
    }
  }

  /** With four or more same-category products, all four are of that
      category. */
  lemma RelatedPrefersCategory(current: Product, catalog: seq<Product>)
    requires |SameCategory(current, catalog)| >= Shown
    ensures |Related(current, catalog)| == Shown
    ensures forall i :: 0 <= i < Shown ==> Related(current, catalog)[i].category == current.category
  {
  }

  /** `r[..k]` is a same-category group and `r[k..]` an other-category
      group, each in catalogue order. */
  ghost predicate GroupedAt(current: Product, catalog: seq<Product>, r: seq<Product>, k: nat) {
    && k <= |r|
    && (forall i :: 0 <= i < k ==> r[i].category == current.category)
    && (forall i :: k <= i < |r| ==> r[i].category != current.category)
    && IsSubsequence(r[..k], catalog) && IsSubsequence(r[k..], catalog)
  }

  /** The strip is a same-category group followed by an other-category
      group, each in catalogue order. */
  lemma RelatedGroupsInOrder(current: Product, catalog: seq<Product>)
    ensures exists k: nat :: GroupedAt(current, catalog, Related(current, catalog), k)
  {
    var k := RelatedSplit(current, catalog);
  }

  /** The split point of the strip is where the same-category slice ends:
      the strip is the first `k` same-category products, `k` being four or
      all of them when fewer, followed by the first other-category ones. */
  lemma RelatedSplit(current: Product, catalog: seq<Product>) returns (k: nat)
    ensures GroupedAt(current, catalog, Related(current, catalog), k)
    ensures k == if |SameCategory(current, catalog)| < Shown then |SameCategory(current, catalog)| else Shown
    ensures Related(current, catalog)[..k] == SameCategory(current, catalog)[..k]
    ensures |Related(current, catalog)| - k <= |OtherCategory(current, catalog)|
    ensures Related(current, catalog)[k..] == OtherCategory(current, catalog)[..|Related(current, catalog)| - k]
  {
    var same := Take(SameCategory(current, catalog), Shown);
    k := |same|;
    TakeIsSubsequence(SameCategory(current, catalog), Shown, catalog);
    if k < Shown {
      var other := Take(OtherCategory(current, catalog), Shown - k);
      TakeIsSubsequence(OtherCategory(current, catalog), Shown - k, catalog);
      GroupedConcat(current, catalog, same, other);
      assert Related(current, catalog) == same + other;
    } else {
      assert IsSubsequence([], catalog);
      GroupedConcat(current, catalog, same, []);
      assert Related(current, catalog) == same == same + [];
    }
  }

  /** A same-category group followed by an other-category group. */
  lemma GroupedConcat(current: Product, catalog: seq<Product>, a: seq<Product>, b: seq<Product>)
    requires forall i :: 0 <= i < |a| ==> a[i].category == current.category
    requires forall i :: 0 <= i < |b| ==> b[i].category != current.category
    requires IsSubsequence(a, catalog) && IsSubsequence(b, catalog)
    ensures GroupedAt(current, catalog, a + b, |a|)
  {
    var r := a + b;
    assert r[..|a|] == a && r[|a|..] == b;
  }

  /** A catalogue without repeats gives a strip without repeats. */
  lemma RelatedDistinct(current: Product, catalog: seq<Product>)
    requires Distinct(catalog)
    ensures Distinct(Related(current, catalog))
  {
    var same := SameCategory(current, catalog);
    var other := OtherCategory(current, catalog);
    FilterDistinct(catalog, (p: Product) => p.category == current.category && p.id != current.id);
    FilterDistinct(catalog, (p: Product) => p.category != current.category && p.id != current.id);
    var k := if |same| < Shown then |same| else Shown;
    DistinctGroups(Related(current, catalog), k, same, other, current.category);
  }

  /** A prefix of one repeat-free group followed by a prefix of another,
      the groups told apart by category, has no repeats. */
  lemma DistinctGroups(r: seq<Product>, k: nat, a: seq<Product>, b: seq<Product>, c: string)
    requires k <= |r| && k <= |a| && |r| - k <= |b|
    requires r[..k] == a[..k] && r[k..] == b[..|r| - k]
    requires Distinct(a) && Distinct(b)
    requires forall i :: 0 <= i < |a| ==> a[i].category == c
    requires forall i :: 0 <= i < |b| ==> b[i].category != c
    ensures Distinct(r)
  {
    forall i, j | 0 <= i < j < |r| ensures r[i] != r[j] {
      if j < k {
        assert r[i] == r[..k][i] == a[i] && r[j] == r[..k][j] == a[j];
      } else if i >= k {
        assert r[i] == r[k..][i - k] == b[i - k] && r[j] == r[k..][j - k] == b[j - k];
      } else {
        assert r[i] == r[..k][i] == a[i] && r[j] == r[k..][j - k] == b[j - k];
      }
    }
  }

}
