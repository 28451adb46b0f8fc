/** Order-preserving sequence helpers shared by the storefront's list
    pipelines (`Array.prototype.filter`, `slice(0, n)`). */
module Seqs {

  /** `a` is an order-preserving subsequence of `b`. */
  ghost predicate IsSubsequence<T>(a: seq<T>, b: seq<T>)
    decreases |b|
  {
    if a == [] then true
    else if b == [] then false
    else (a[0] == b[0] && IsSubsequence(a[1..], b[1..])) || IsSubsequence(a, b[1..])
  }

  /** No element occurs twice. */
  predicate Distinct<T(==)>(s: seq<T>) {
    forall i, j :: 0 <= i < j < |s| ==> s[i] != s[j]
  }

  /** `Array.prototype.filter`: the elements of `s` satisfying `f`, in order. */
  function Filter<T(==)>(s: seq<T>, f: T -> bool): (r: seq<T>)
    ensures |r| <= |s|
    ensures forall i :: 0 <= i < |r| ==> f(r[i]) && r[i] in s
    ensures forall i :: 0 <= i < |s| && f(s[i]) ==> s[i] in r
    ensures IsSubsequence(r, s)
  {
    if s == [] then []
    else if f(s[0]) then [s[0]] + Filter(s[1..], f)
    else Filter(s[1..], f)
  }

  /** `r` holds every element of `s` that passes `f` as often as `s`
      does, and nothing `s` does not hold. */
  predicate KeepsCounts<T(==)>(r: seq<T>, s: seq<T>, f: T -> bool) {
    && multiset(r) <= multiset(s)
    && forall i :: 0 <= i < |s| && f(s[i]) ==> multiset(r)[s[i]] == multiset(s)[s[i]]
  }

  /** Filtering keeps every passing element as often as it occurs, and
      adds nothing. */
  lemma {:induction false} FilterCount<T>(s: seq<T>, f: T -> bool)
    ensures KeepsCounts(Filter(s, f), s, f)
    decreases |s|
  {
    if s != [] {
      FilterCount(s[1..], f);
      assert s == [s[0]] + s[1..];
      assert multiset(s) == multiset{s[0]} + multiset(s[1..]);
      var rest := Filter(s[1..], f);
      if f(s[0]) {
        assert multiset(Filter(s, f)) == multiset{s[0]} + multiset(rest);
      }
      forall i | 0 <= i < |s| && f(s[i])
        ensures multiset(Filter(s, f))[s[i]] == multiset(s)[s[i]]
      {
        var x := s[i];
        if x !in s[1..] {
          assert x == s[0];
        } else {
          var j :| 0 <= j < |s[1..]| && s[1..][j] == x;
          assert s[1..][j] == s[j + 1];
        }
      }
    }
  }

  /** `slice(0, n)`: the first `n` elements, or all of them when there are fewer. */
  function Take<T>(s: seq<T>, n: nat): (r: seq<T>)
    ensures |r| == if |s| < n then |s| else n
    ensures forall i :: 0 <= i < |r| ==> r[i] == s[i]
  {
    if |s| <= n then s else s[..n]
  }

  lemma {:induction false} FilterDistinct<T>(s: seq<T>, f: T -> bool)
    requires Distinct(s)
    ensures Distinct(Filter(s, f))
    decreases |s|
  {
    if s != [] {
      FilterDistinct(s[1..], f);
      var r := Filter(s[1..], f);
      assert forall i :: 0 <= i < |r| ==> r[i] in s[1..];
      assert s[0] !in s[1..];
    }
  }

  /** Filtering by `f` and by its negation splits the input's length. */
  lemma {:induction false} FilterPartition<T>(s: seq<T>, f: T -> bool, g: T -> bool)
    requires forall x :: g(x) == !f(x)
    ensures |Filter(s, f)| + |Filter(s, g)| == |s|
    decreases |s|
  {
    if s != [] {
      FilterPartition(s[1..], f, g);
    }
  }

  /** Filtering by a test every element passes changes nothing. */
  lemma {:induction false} FilterAll<T>(s: seq<T>, f: T -> bool)
    requires forall i :: 0 <= i < |s| ==> f(s[i])
    ensures Filter(s, f) == s
    decreases |s|
  {
    if s != [] {
      FilterAll(s[1..], f);
      assert [s[0]] + s[1..] == s;
    }
  }

  /** Filtering distributes over concatenation. */
  lemma {:induction false} FilterAppend<T>(a: seq<T>, b: seq<T>, f: T -> bool)
    ensures Filter(a + b, f) == Filter(a, f) + Filter(b, f)
    decreases |a|
  {
    if a == [] {
      assert a + b == b;
    } else {
      var ab := a + b;
      assert ab[0] == a[0] && ab[1..] == a[1..] + b;
      FilterAppend(a[1..], b, f);
      if f(a[0]) {
        calc {
          Filter(ab, f);
          [a[0]] + Filter(a[1..] + b, f);
          [a[0]] + (Filter(a[1..], f) + Filter(b, f));
          ([a[0]] + Filter(a[1..], f)) + Filter(b, f);
        }
      }
    }
  }

  /** A prefix is a subsequence. */
  lemma {:induction false} PrefixIsSubsequence<T>(s: seq<T>, n: nat)
    requires n <= |s|
    ensures IsSubsequence(s[..n], s)
    decreases |s|
  {
    if n > 0 {
      assert s[..n][1..] == s[1..][..n - 1];
      PrefixIsSubsequence(s[1..], n - 1);
    }
  }

  /** Being a subsequence is transitive. */
  lemma {:induction false} SubsequenceTransitive<T>(a: seq<T>, b: seq<T>, c: seq<T>)
    requires IsSubsequence(a, b) && IsSubsequence(b, c)
    ensures IsSubsequence(a, c)
    decreases |c|
  {
    if a != [] {
      if b[0] == c[0] && IsSubsequence(b[1..], c[1..]) {
        if a[0] == b[0] && IsSubsequence(a[1..], b[1..]) {
          SubsequenceTransitive(a[1..], b[1..], c[1..]);
        } else {
          SubsequenceTransitive(a, b[1..], c[1..]);
        }
      } else {
        SubsequenceTransitive(a, b, c[1..]);
      }
    }
  }

  /** No element of a subsequence is new. */
  lemma {:induction false} SubsequenceMembers<T>(a: seq<T>, b: seq<T>)
    requires IsSubsequence(a, b)
    ensures forall i :: 0 <= i < |a| ==> a[i] in b
    decreases |b|
  {
    if a != [] {
      if a[0] == b[0] && IsSubsequence(a[1..], b[1..]) {
        SubsequenceMembers(a[1..], b[1..]);
        assert forall i :: 1 <= i < |a| ==> a[i] == a[1..][i - 1];
      } else {
        SubsequenceMembers(a, b[1..]);
      }
    }
  }

  /** A prefix of a subsequence of `c` is a subsequence of `c`. */
  lemma TakeIsSubsequence<T>(s: seq<T>, n: nat, c: seq<T>)
    requires IsSubsequence(s, c)
    ensures IsSubsequence(Take(s, n), c)
  {
    if n < |s| {
      PrefixIsSubsequence(s, n);
      SubsequenceTransitive(s[..n], s, c);
    }
  }
}
