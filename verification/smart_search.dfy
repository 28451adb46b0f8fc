/** The search overlay's ranking: a term-wise substring matcher, a
    multi-field match predicate, an additive relevance score, and a stable
    descending sort cut to eight results. */
module SmartSearch {
  import opened Strings
  import opened Seqs
  import opened Catalog

  /** At most this many results are shown. */
  const ResultLimit: nat := 8
  /** Shorter (trimmed) queries show nothing. */
  const MinQueryLength: nat := 2

  // ------------------------------------------------------------- matching

  /** The query's search terms: the non-empty pieces of the lower-cased query
      split at whitespace, in order; every such piece is a term and nothing
      else is. */
  function Terms(query: string): (ts: seq<string>)
    ensures IsSubsequence(ts, SplitWs(Lower(query)))
    ensures forall k :: 0 <= k < |ts| ==> ts[k] != [] && NoSpace(ts[k]) && ts[k] in SplitWs(Lower(query))
    ensures forall j :: 0 <= j < |SplitWs(Lower(query))| && SplitWs(Lower(query))[j] != [] ==>
      SplitWs(Lower(query))[j] in ts
  {
    Filter(SplitWs(Lower(query)), (t: string) => t != [])
  }

  /** Dropping empty pieces does not change their concatenation. */
  lemma {:induction false} ConcatNonEmpty(ps: seq<string>)
    ensures Concat(Filter(ps, (t: string) => t != [])) == Concat(ps)
    decreases |ps|
  {
    if ps != [] {
      ConcatNonEmpty(ps[1..]);
      if ps[0] != [] {
        ConcatCons(ps[0], Filter(ps[1..], (t: string) => t != []));
      } else {
        assert Concat(ps) == [] + Concat(ps[1..]);
      }
    }
  }

  /** The terms, put together, are exactly the non-whitespace characters of
      the lower-cased query, in order: splitting loses only whitespace. */
  lemma TermsKeepText(query: string)
    ensures Concat(Terms(query)) == Unspaced(Lower(query))
  {
    ConcatNonEmpty(SplitWs(Lower(query)));
    SplitWsKeepsText(Lower(query));
  }

  /** Every term occurs in `text`. */
  function AllOccur(terms: seq<string>, text: string): (b: bool)
    ensures b <==> forall k :: 0 <= k < |terms| ==> Contains(text, terms[k])
  {
    if terms == [] then true
    else
      var rest := AllOccur(terms[1..], text);
      assert forall k :: 1 <= k < |terms| ==> terms[k] == terms[1..][k - 1];
      Contains(text, terms[0]) && rest
  }

  /** `fuzzySearch(query, text)`: every non-empty whitespace-separated term
      of the lower-cased query is a substring of the lower-cased text. */
  function FuzzySearch(query: string, text: string): (b: bool)
    ensures b <==> forall k :: 0 <= k < |Terms(query)| ==> Contains(Lower(text), Terms(query)[k])
  {
    AllOccur(Terms(query), Lower(text))
  }

  /** `items.some(a => fuzzySearch(query, a))`. */
  function AnyFuzzy(query: string, items: seq<string>): (b: bool)
    ensures b <==> exists k :: 0 <= k < |items| && FuzzySearch(query, items[k])
  {
    if items == [] then false
    else
      var rest := AnyFuzzy(query, items[1..]);
      assert forall k :: 1 <= k < |items| ==> items[k] == items[1..][k - 1];
      FuzzySearch(query, items[0]) || rest
  }

  /** Two words are related when either contains the other. */
  predicate WordsOverlap(a: string, b: string) {
    Contains(b, a) || Contains(a, b)
  }

  /** Some name word is related to `qWord`. */
  function RelatedToAny(qWord: string, nameWords: seq<string>): (b: bool)
    ensures b <==> exists j :: 0 <= j < |nameWords| && WordsOverlap(qWord, nameWords[j])
  {
    if nameWords == [] then false
    else
      var rest := RelatedToAny(qWord, nameWords[1..]);
      assert forall j :: 1 <= j < |nameWords| ==> nameWords[j] == nameWords[1..][j - 1];
      WordsOverlap(qWord, nameWords[0]) || rest
  }

  /** `queryWords.some(q => nameWords.some(n => n.includes(q) || q.includes(n)))`. */
  function HasWordMatch(queryWords: seq<string>, nameWords: seq<string>): (b: bool)
    ensures b <==> exists k, j :: 0 <= k < |queryWords| && 0 <= j < |nameWords|
                                 && WordsOverlap(queryWords[k], nameWords[j])
  {
    if queryWords == [] then false
    else
      var rest := HasWordMatch(queryWords[1..], nameWords);
      assert forall k :: 1 <= k < |queryWords| ==> queryWords[k] == queryWords[1..][k - 1];
      RelatedToAny(queryWords[0], nameWords) || rest
  }

  /** A category id made readable: hyphens become spaces. */
  function CategoryText(category: string): string {
    ReplaceChar(category, '-', ' ')
  }

  /** The filter of the query effect: the query matches the name, the
      description, the readable category, an application type or a colour
      temperature term by term, or some word of the trimmed query and some
      word of the name contain one another. */
  predicate Matches(query: string, p: Product) {
    || FuzzySearch(query, p.name)
    || FuzzySearch(query, p.shortDescription)
    || FuzzySearch(query, CategoryText(p.category))
    || AnyFuzzy(query, p.applicationTypes)
    || AnyFuzzy(query, p.colorTemperatures)
    || HasWordMatch(SplitWs(Trim(Lower(query))), SplitWs(Lower(p.name)))
  }

  /** The search is blind to letter case in the query. */
  lemma FuzzySearchIgnoresCase(query: string, text: string)
    ensures FuzzySearch(Lower(query), text) == FuzzySearch(query, text)
    ensures FuzzySearch(query, Lower(text)) == FuzzySearch(query, text)
  {
    LowerIdempotent(query);
    LowerIdempotent(text);
  }

  // --------------------------------------------------------------- scoring

  /** How many name words are related to `qWord`. */
  function RelatedCount(qWord: string, nameWords: seq<string>): (n: nat)
    ensures n <= |nameWords|
    ensures n > 0 <==> RelatedToAny(qWord, nameWords)
  {
    if nameWords == [] then 0
    else (if WordsOverlap(qWord, nameWords[0]) then 1 else 0) + RelatedCount(qWord, nameWords[1..])
  }

  /** The word bonus: 10 for every (query word, name word) pair in which
      either word contains the other. */
  function WordBonus(queryWords: seq<string>, nameWords: seq<string>): (n: nat)
    ensures n > 0 <==> HasWordMatch(queryWords, nameWords)
  {
    if queryWords == [] then 0
    else 10 * RelatedCount(queryWords[0], nameWords) + WordBonus(queryWords[1..], nameWords)
  }

  /** How many entries contain `q` once lower-cased; some entry does
      exactly when the count is positive. */
  function CountContaining(items: seq<string>, q: string): (n: nat)
    ensures n <= |items|
    ensures n > 0 <==> exists k :: 0 <= k < |items| && Contains(Lower(items[k]), q)
  {
    assert forall k :: 1 <= k < |items| ==> items[k] == items[1..][k - 1];
    if items == [] then 0
    else (if Contains(Lower(items[0]), q) then 1 else 0) + CountContaining(items[1..], q)
  }

  function Bonus(cond: bool, points: nat): nat {
    if cond then points else 0
  }

  /** `getRelevanceScore(query, product)`: exact name +100, name prefix +50,
      name substring +30, readable category substring +25, the word bonus,
      description substring +5, and +5 per matching application type and
      per matching colour temperature. The query is not trimmed here. */
  function Score(query: string, p: Product): (r: nat)
    ensures Lower(p.name) == Lower(query) ==> r >= 180
  {
    var q := Lower(query);
    var name := Lower(p.name);
    ContainsSelf(name);
    Bonus(name == q, 100)
    + Bonus(StartsWith(name, q), 50)
    + Bonus(Contains(name, q), 30)
    + Bonus(Contains(Lower(CategoryText(p.category)), q), 25)
    + WordBonus(SplitWs(q), SplitWs(name))
    + Bonus(Contains(Lower(p.shortDescription), q), 5)
    + 5 * CountContaining(p.applicationTypes, q)
    + 5 * CountContaining(p.colorTemperatures, q)
  }

  /** Because the score splits the untrimmed query, a query that starts with
      whitespace has an empty first word, which every name word contains: the
      word bonus alone is then at least 10 per word of the name. */
  lemma LeadingSpaceMatchesEveryNameWord(query: string, p: Product)
    requires query != [] && IsSpace(query[0])
    ensures Score(query, p) >= 10 * |SplitWs(Lower(p.name))|
  {
    var q := Lower(query);
    var qs := SplitWs(q);
    var ns := SplitWs(Lower(p.name));
    assert IsSpace(q[0]);
    assert qs[0] == [];
    EmptyWordRelatedToAll(ns);
    assert WordBonus(qs, ns) >= 10 * RelatedCount(qs[0], ns);
  }

  /** The same holds for a query that ends in whitespace: JavaScript's split
      then leaves an empty last word. */
  lemma TrailingSpaceMatchesEveryNameWord(query: string, p: Product)
    requires query != [] && IsSpace(query[|query| - 1])
    ensures Score(query, p) >= 10 * |SplitWs(Lower(p.name))|
  {
    var q := Lower(query);
    var ns := SplitWs(Lower(p.name));
    assert IsSpace(q[|q| - 1]);
    SplitWsLastPiece(q);
    EmptyWordRelatedToAll(ns);
    WordBonusAtLeast(SplitWs(q), ns, |SplitWs(q)| - 1);
    ScoreAtLeastWordBonus(query, p);
  }

  /** The score is at least its word bonus. */
  lemma ScoreAtLeastWordBonus(query: string, p: Product)
    ensures Score(query, p) >= WordBonus(SplitWs(Lower(query)), SplitWs(Lower(p.name)))
  {
  }

  /** Each query word alone earns its related name words' bonus. */
  lemma {:induction false} WordBonusAtLeast(queryWords: seq<string>, nameWords: seq<string>, k: nat)
    requires k < |queryWords|
    ensures WordBonus(queryWords, nameWords) >= 10 * RelatedCount(queryWords[k], nameWords)
    decreases k
  {
    if k > 0 {
      WordBonusAtLeast(queryWords[1..], nameWords, k - 1);
      assert queryWords[1..][k - 1] == queryWords[k];
    }
  }

  lemma {:induction false} EmptyWordRelatedToAll(nameWords: seq<string>)
    ensures RelatedCount([], nameWords) == |nameWords|
  {
    if nameWords != [] {
      ContainsEmpty(nameWords[0]);
      EmptyWordRelatedToAll(nameWords[1..]);
    }
  }

  // --------------------------------------------------------------- sorting

  /** A matching product with its score and its index among the matches. */
  datatype Ranked = Ranked(product: Product, score: int, pos: nat)

  predicate SortedByScore(s: seq<Ranked>) {
    forall i, j :: 0 <= i < j < |s| ==> s[i].score >= s[j].score
  }

  /** Equal scores appear in their original order. */
  predicate TiesInOrder(s: seq<Ranked>) {
    forall i, j :: 0 <= i < j < |s| && s[i].score == s[j].score ==> s[i].pos < s[j].pos
  }

  predicate PosIncreasing(s: seq<Ranked>) {
    forall i, j :: 0 <= i < j < |s| ==> s[i].pos < s[j].pos
  }

  /** The number of leading elements of `s` that outscore `x`. */
  function InsertIndex(x: Ranked, s: seq<Ranked>): (k: nat)
    ensures k <= |s|
    ensures forall i :: 0 <= i < k ==> s[i].score > x.score
    ensures k < |s| ==> s[k].score <= x.score
  {
    if s == [] || x.score >= s[0].score then 0 else 1 + InsertIndex(x, s[1..])
  }

  /** Places `x` before the first element that does not outscore it. */
  function Insert(x: Ranked, s: seq<Ranked>): seq<Ranked> {
    var k := InsertIndex(x, s);
    s[..k] + [x] + s[k..]
  }

  lemma InsertPermutes(x: Ranked, s: seq<Ranked>)
    ensures multiset(Insert(x, s)) == multiset(s) + multiset{x}
  {
    var k := InsertIndex(x, s);
    var a, b := s[..k], s[k..];
    assert s == a + b;
    assert multiset(a + [x] + b) == multiset(a + [x]) + multiset(b);
  }

  /** The element at each index of `Insert(x, s)`. */
  lemma InsertAt(x: Ranked, s: seq<Ranked>, i: int)
    requires 0 <= i <= |s|
    ensures |Insert(x, s)| == |s| + 1
    ensures var k := InsertIndex(x, s);
      Insert(x, s)[i] == if i < k then s[i] else if i == k then x else s[i - 1]
  {
  }

  /** Inserting keeps a sorted list sorted. */
  lemma InsertKeepsSorted(x: Ranked, s: seq<Ranked>)
    requires SortedByScore(s)
    ensures SortedByScore(Insert(x, s))
  {
    var r := Insert(x, s);
    forall i, j | 0 <= i < j < |r| ensures r[i].score >= r[j].score {
      InsertedOrder(x, s, i, j);
    }
  }

  lemma InsertedOrder(x: Ranked, s: seq<Ranked>, i: int, j: int)
    requires SortedByScore(s)
    requires 0 <= i < j <= |s|
    ensures Insert(x, s)[i].score >= Insert(x, s)[j].score
  {
    var k := InsertIndex(x, s);
    InsertAt(x, s, i);
    InsertAt(x, s, j);
    if i < k && j > k {
      assert s[i].score > x.score;
    } else if i == k && j > k {
      assert s[k].score <= x.score;
      assert k == j - 1 || s[k].score >= s[j - 1].score;
    }
  }

  /** Inserting an element that comes before every element of `s` keeps ties
      in order. */
  lemma InsertKeepsTies(x: Ranked, s: seq<Ranked>)
    requires TiesInOrder(s)
    requires forall m :: 0 <= m < |s| ==> x.pos < s[m].pos
    ensures TiesInOrder(Insert(x, s))
  {
    var r := Insert(x, s);
    forall i, j | 0 <= i < j < |r| && r[i].score == r[j].score ensures r[i].pos < r[j].pos {
      InsertedTie(x, s, i, j);
    }
  }

  lemma InsertedTie(x: Ranked, s: seq<Ranked>, i: int, j: int)
    requires TiesInOrder(s)
    requires forall m :: 0 <= m < |s| ==> x.pos < s[m].pos
    requires 0 <= i < j <= |s|
    requires Insert(x, s)[i].score == Insert(x, s)[j].score
    ensures Insert(x, s)[i].pos < Insert(x, s)[j].pos
  {
    var k := InsertIndex(x, s);
    InsertAt(x, s, i);
    InsertAt(x, s, j);
    if j < k {
      assert s[i].score == s[j].score;
    } else if j == k {
      assert false;
    } else if i < k {
      assert s[i].score == s[j - 1].score;
    } else if i > k {
      assert s[i - 1].score == s[j - 1].score;
    }
  }

  /** One step of the sort: inserting the head into the sorted tail. */
  lemma InsertStep(s: seq<Ranked>, rest: seq<Ranked>)
    requires s != [] && multiset(rest) == multiset(s[1..]) && SortedByScore(rest)
    requires PosIncreasing(s[1..]) ==> TiesInOrder(rest)
    ensures multiset(Insert(s[0], rest)) == multiset(s) && |Insert(s[0], rest)| == |s|
    ensures SortedByScore(Insert(s[0], rest))
    ensures PosIncreasing(s) ==> TiesInOrder(Insert(s[0], rest))
  {
    assert s == [s[0]] + s[1..];
    InsertPermutes(s[0], rest);
    InsertKeepsSorted(s[0], rest);
    HeadPrecedesSortedTail(s, rest);
    if PosIncreasing(s) {
      InsertKeepsTies(s[0], rest);
    }
  }

  /** The stable descending sort `sort((a, b) => b.score - a.score)`, as an
      insertion sort that keeps earlier elements ahead of equal scores. */
  function SortByScore(s: seq<Ranked>): (r: seq<Ranked>)
    ensures multiset(r) == multiset(s) && |r| == |s|
    ensures SortedByScore(r)
    ensures PosIncreasing(s) ==> TiesInOrder(r)
  {
    if s == [] then []
    else
      var rest := SortByScore(s[1..]);
      InsertStep(s, rest);
      Insert(s[0], rest)
  }

  /** Sorting the tail of a list with increasing positions yields only
      elements positioned after its head. */
  lemma HeadPrecedesSortedTail(s: seq<Ranked>, rest: seq<Ranked>)
    requires s != [] && multiset(rest) == multiset(s[1..])
    ensures PosIncreasing(s) ==> PosIncreasing(s[1..]) && forall k :: 0 <= k < |rest| ==> s[0].pos < rest[k].pos
  {
    if PosIncreasing(s) {
      forall k | 0 <= k < |rest| ensures s[0].pos < rest[k].pos {
        assert rest[k] in multiset(s[1..]);
        var m :| 0 <= m < |s[1..]| && s[1..][m] == rest[k];
        assert s[m + 1] == rest[k];
      }
    }
  }

  // -------------------------------------------------------------- pipeline

  /** `products.filter(...)` with the match predicate. */
  function MatchingProducts(query: string, catalog: seq<Product>): (m: seq<Product>)
    ensures forall i :: 0 <= i < |m| ==> m[i] in catalog && Matches(query, m[i])
    ensures forall j :: 0 <= j < |catalog| && Matches(query, catalog[j]) ==> catalog[j] in m
    ensures IsSubsequence(m, catalog)
  {
    Filter(catalog, (p: Product) => Matches(query, p))
  }

  /** The matches keep every matching catalogue entry as often as the
      catalogue lists it, and nothing else. */
  lemma MatchingKeepsCounts(query: string, catalog: seq<Product>)
    ensures multiset(MatchingProducts(query, catalog)) <= multiset(catalog)
    ensures forall j :: 0 <= j < |catalog| && Matches(query, catalog[j]) ==>
      multiset(MatchingProducts(query, catalog))[catalog[j]] == multiset(catalog)[catalog[j]]
  {
    FilterCount(catalog, (p: Product) => Matches(query, p));
  }

  /** Each match paired with its score and its index. */
  function Rank(query: string, matching: seq<Product>): (r: seq<Ranked>)
    ensures |r| == |matching| && PosIncreasing(r)
    ensures forall k :: 0 <= k < |r| ==> r[k] == Ranked(matching[k], Score(query, matching[k]), k)
  {
    seq(|matching|, k requires 0 <= k < |matching| => Ranked(matching[k], Score(query, matching[k]), k))
  }

  /** The ranked list behind the result: empty for a query whose trimmed
      length is under two, else the sorted matches cut to eight. */
  function RankedResults(query: string, catalog: seq<Product>): (rr: seq<Ranked>)
    ensures |rr| <= ResultLimit
  {
    if JsLength(Trim(query)) < MinQueryLength then []
    else Take(SortByScore(Rank(query, MatchingProducts(query, catalog))), ResultLimit)
  }

  /** The search results shown for `query`. */
  function Search(query: string, catalog: seq<Product>): (r: seq<Product>)
    ensures |r| == |RankedResults(query, catalog)| <= ResultLimit
    ensures forall i :: 0 <= i < |r| ==> r[i] == RankedResults(query, catalog)[i].product
  {
    Products(RankedResults(query, catalog))
  }

  /** `.map(item => item.product)`. */
  function Products(rr: seq<Ranked>): (ps: seq<Product>)
    ensures |ps| == |rr|
    ensures forall i :: 0 <= i < |ps| ==> ps[i] == rr[i].product
  {
    seq(|rr|, i requires 0 <= i < |rr| => rr[i].product)
  }

  // ------------------------------------------------------------ properties

  /** The facts about a ranked list that the results inherit: sorted, ties
      in match order, each entry a match with its true score. */
  predicate Describes(query: string, m: seq<Product>, rr: seq<Ranked>) {
    && SortedByScore(rr) && TiesInOrder(rr)
    && forall i :: 0 <= i < |rr| ==>
         rr[i].pos < |m| && rr[i].product == m[rr[i].pos] && rr[i].score == Score(query, rr[i].product)
  }

  /** Every sorted entry is the ranked entry at its own position. */
  lemma SortedRankDescribes(query: string, m: seq<Product>)
    ensures Describes(query, m, SortByScore(Rank(query, m)))
  {
    var ranked := Rank(query, m);
    var sorted := SortByScore(ranked);
    forall i | 0 <= i < |sorted|
      ensures sorted[i].pos < |m| && sorted[i].product == m[sorted[i].pos]
      ensures sorted[i].score == Score(query, sorted[i].product)
    {
      assert sorted[i] in multiset(sorted);
      assert sorted[i] in multiset(ranked);
      var k :| 0 <= k < |ranked| && ranked[k] == sorted[i];
    }
  }

  /** Cutting a described list keeps it described. */
  lemma TakeDescribes(query: string, m: seq<Product>, rr: seq<Ranked>, n: nat)
    requires Describes(query, m, rr)
    ensures Describes(query, m, Take(rr, n))
  {
  }

  /** The ranked results describe the matches, with their true scores, in
      score order, equal scores in match order. */
  lemma RankedResultsFacts(query: string, catalog: seq<Product>)
    ensures Describes(query, MatchingProducts(query, catalog), RankedResults(query, catalog))
  {
    var m := MatchingProducts(query, catalog);
    if JsLength(Trim(query)) >= MinQueryLength {
      SortedRankDescribes(query, m);
      TakeDescribes(query, m, SortByScore(Rank(query, m)), ResultLimit);
    }
  }

  /** A query whose trimmed length is under two shows nothing. */
  lemma SearchShortQuery(query: string, catalog: seq<Product>)
    requires JsLength(Trim(query)) < MinQueryLength
    ensures Search(query, catalog) == []
  {
  }

  /** Soundness: every result is a catalogue product the query matches. */
  lemma SearchSound(query: string, catalog: seq<Product>)
    ensures forall i :: 0 <= i < |Search(query, catalog)| ==>
      Search(query, catalog)[i] in catalog && Matches(query, Search(query, catalog)[i])
  {
    RankedResultsFacts(query, catalog);
    var m := MatchingProducts(query, catalog);
    var r := Search(query, catalog);
    var rr := RankedResults(query, catalog);
    forall i | 0 <= i < |r| ensures r[i] in catalog && Matches(query, r[i]) {
      assert r[i] == m[rr[i].pos];
    }
  }

  /** Every match has a place in the sorted list. */
  lemma SortedHasMatch(query: string, m: seq<Product>, k: nat) returns (i: nat)
    requires k < |m|
    ensures i < |SortByScore(Rank(query, m))| && SortByScore(Rank(query, m))[i].product == m[k]
  {
    var ranked := Rank(query, m);
    var sorted := SortByScore(ranked);
    assert ranked[k] in multiset(ranked);
    assert ranked[k] in multiset(sorted);
    i :| 0 <= i < |sorted| && sorted[i] == ranked[k];
  }

  /** A matching catalogue product has an index among the matches. */
  lemma MatchIndex(query: string, catalog: seq<Product>, p: Product) returns (k: nat)
    requires p in catalog && Matches(query, p)
    ensures k < |MatchingProducts(query, catalog)| && MatchingProducts(query, catalog)[k] == p
  {
    var m := MatchingProducts(query, catalog);
    var j :| 0 <= j < |catalog| && catalog[j] == p;
    assert p in m;
    k :| 0 <= k < |m| && m[k] == p;
  }

  /** Fewer than eight matches are shown uncut. */
  lemma UncutResults(query: string, catalog: seq<Product>)
    requires JsLength(Trim(query)) >= MinQueryLength
    requires |SortByScore(Rank(query, MatchingProducts(query, catalog)))| < ResultLimit
    ensures RankedResults(query, catalog) == SortByScore(Rank(query, MatchingProducts(query, catalog)))
  {
  }

  /** Completeness up to the cap: a matching catalogue product is missing
      from the results only when eight results are already shown. */
  lemma SearchComplete(query: string, catalog: seq<Product>, p: Product)
    requires JsLength(Trim(query)) >= MinQueryLength
    requires p in catalog && Matches(query, p)
    ensures p in Search(query, catalog) || |Search(query, catalog)| == ResultLimit
  {
    var m := MatchingProducts(query, catalog);
    var sorted := SortByScore(Rank(query, m));
    if |sorted| < ResultLimit {
      var k := MatchIndex(query, catalog, p);
      var i := SortedHasMatch(query, m, k);
      UncutResults(query, catalog);
      var r := Search(query, catalog);
      assert r[i] == sorted[i].product == p;
    }
  }

  /** The cap keeps the best: a matching product left out of the results
      only when eight are shown, each scoring at least as much as it. */
  lemma SearchKeepsBest(query: string, catalog: seq<Product>, p: Product)
    requires JsLength(Trim(query)) >= MinQueryLength
    requires p in catalog && Matches(query, p) && p !in Search(query, catalog)
    ensures |Search(query, catalog)| == ResultLimit
    ensures forall j :: 0 <= j < ResultLimit ==> Score(query, Search(query, catalog)[j]) >= Score(query, p)
  {
    var m := MatchingProducts(query, catalog);
    var sorted := SortByScore(Rank(query, m));
    var k := MatchIndex(query, catalog, p);
    var i := SortedHasMatch(query, m, k);
    SortedRankDescribes(query, m);
    assert RankedResults(query, catalog) == Take(sorted, ResultLimit);
    TakeOutscores(query, m, sorted, i, ResultLimit, RankedResults(query, catalog), Search(query, catalog));
  }

  /** A sorted entry whose product is missing from the first `limit`
      products leaves `limit` products, none scoring less than it. */
  lemma TakeOutscores(query: string, m: seq<Product>, sorted: seq<Ranked>, i: nat, limit: nat,
                      rr: seq<Ranked>, r: seq<Product>)
    requires Describes(query, m, sorted) && i < |sorted| && rr == Take(sorted, limit)
    requires |r| == |rr| && forall j :: 0 <= j < |r| ==> r[j] == rr[j].product
    requires sorted[i].product !in r
    ensures |r| == limit
    ensures forall j :: 0 <= j < limit ==> Score(query, r[j]) >= Score(query, sorted[i].product)
  {
    forall j | 0 <= j < limit ensures Score(query, r[j]) >= Score(query, sorted[i].product) {
      assert r[j] == sorted[j].product;
    }
  }



  /** Results appear with non-increasing scores. */
  lemma SearchOrdered(query: string, catalog: seq<Product>)
    ensures forall i, j :: 0 <= i < j < |Search(query, catalog)| ==>
      Score(query, Search(query, catalog)[i]) >= Score(query, Search(query, catalog)[j])
  {
    RankedResultsFacts(query, catalog);
    var rr := RankedResults(query, catalog);
    var r := Search(query, catalog);
    forall i, j | 0 <= i < j < |r| ensures Score(query, r[i]) >= Score(query, r[j]) {
      assert rr[i].score >= rr[j].score;
    }
  }

  /** Stability: results of equal score keep their order among the matches,
      which is catalogue order. */
  lemma SearchStable(query: string, catalog: seq<Product>)
    ensures var m := MatchingProducts(query, catalog);
      var rr := RankedResults(query, catalog);
      && (forall i :: 0 <= i < |rr| ==> rr[i].pos < |m| && Search(query, catalog)[i] == m[rr[i].pos])
      && forall i, j :: 0 <= i < j < |rr| && Score(query, Search(query, catalog)[i]) == Score(query, Search(query, catalog)[j])
           ==> rr[i].pos < rr[j].pos
  {
    RankedResultsFacts(query, catalog);
  }

  /** A catalogue without repeats gives results without repeats. */
  lemma SearchDistinct(query: string, catalog: seq<Product>)
    requires Distinct(catalog)
    ensures Distinct(Search(query, catalog))
  {
    RankedResultsFacts(query, catalog);
    var m := MatchingProducts(query, catalog);
    FilterDistinct(catalog, (p: Product) => Matches(query, p));
    assert Distinct(m);
  }
}
