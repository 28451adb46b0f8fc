/** The JavaScript string operations the storefront relies on, over
    `string` = `seq<char>` (Unicode scalar values). Lower-casing is ASCII
    only; whitespace is the set JavaScript's `\s` and `trim()` use. */
module Strings {

  /** A character matched by JavaScript's `\s` (and removed by `trim()`):
      tab, line feed, vertical tab, form feed, carriage return, space, the
      Unicode space separators, the line/paragraph separators and the BOM. */
  predicate IsSpace(c: char) {
    || c == ' ' || ('\t' <= c <= '\r')
    || c == '\U{00A0}' || c == '\U{1680}' || ('\U{2000}' <= c <= '\U{200A}')
    || c == '\U{2028}' || c == '\U{2029}' || c == '\U{202F}' || c == '\U{205F}'
    || c == '\U{3000}' || c == '\U{FEFF}'
  }

  predicate NoSpace(s: string) {
    forall i :: 0 <= i < |s| ==> !IsSpace(s[i])
  }

  // ---------------------------------------------------------------- case

  function LowerChar(c: char): char {
    if 'A' <= c <= 'Z' then (c as int + 32) as char else c
  }

  /** `toLowerCase()`, restricted to ASCII letters. */
  function Lower(s: string): (r: string)
    ensures |r| == |s|
    ensures forall i :: 0 <= i < |s| ==> r[i] == LowerChar(s[i])
  {
    seq(|s|, i requires 0 <= i < |s| => LowerChar(s[i]))
  }

  lemma LowerIdempotent(s: string)
    ensures Lower(Lower(s)) == Lower(s)
  {
  }

  // ------------------------------------------------------ substring tests

  /** `p` occurs in `s` starting at index `i`. */
  predicate OccursAt(s: string, p: string, i: int) {
    0 <= i && i + |p| <= |s| && s[i..i + |p|] == p
  }

  /** `s.startsWith(p)`. */
  predicate StartsWith(s: string, p: string) {
    |p| <= |s| && s[..|p|] == p
  }

  /** `s.includes(p)`, computed by scanning start positions from the left. */
  function Contains(s: string, p: string): (b: bool)
    ensures b <==> exists i :: OccursAt(s, p, i)
    decreases |s|
  {
    if |p| > |s| then
      false
    else if StartsWith(s, p) then
      assert OccursAt(s, p, 0);
      true
    else
      var b := Contains(s[1..], p);
      assert forall i :: OccursAt(s[1..], p, i) <==> OccursAt(s, p, i + 1) by {
        forall i ensures OccursAt(s[1..], p, i) <==> OccursAt(s, p, i + 1) {
          if 0 <= i && i + |p| <= |s[1..]| {
            assert s[1..][i..i + |p|] == s[i + 1..i + 1 + |p|];
          }
        }
      }
      assert !OccursAt(s, p, 0);
      assert b ==> exists i :: OccursAt(s, p, i) by {
        if b {
          var i :| OccursAt(s[1..], p, i);
          assert OccursAt(s, p, i + 1);
        }
      }
      assert (exists i :: OccursAt(s, p, i)) ==> b by {
        if exists i :: OccursAt(s, p, i) {
          var i :| OccursAt(s, p, i);
          assert i != 0;
          assert OccursAt(s[1..], p, i - 1);
        }
      }
      b
  }

  lemma ContainsEmpty(s: string)
    ensures Contains(s, "")
  {
    assert OccursAt(s, "", 0);
  }

  lemma ContainsSelf(s: string)
    ensures Contains(s, s) && StartsWith(s, s)
  {
    assert OccursAt(s, s, 0);
  }

  // ---------------------------------------------------------------- trim

  /** Where the run of whitespace starting at index `i` ends. */
  function SpaceRunEnd(s: string, i: nat): (n: nat)
    requires i <= |s|
    ensures i <= n <= |s|
    ensures forall j :: i <= j < n ==> IsSpace(s[j])
    ensures n == |s| || !IsSpace(s[n])
    decreases |s| - i
  {
    if i == |s| || !IsSpace(s[i]) then i else SpaceRunEnd(s, i + 1)
  }

  /** Where the run of non-whitespace starting at index `i` ends. */
  function WordRunEnd(s: string, i: nat): (n: nat)
    requires i <= |s|
    ensures i <= n <= |s|
    ensures forall j :: i <= j < n ==> !IsSpace(s[j])
    ensures n == |s| || IsSpace(s[n])
    decreases |s| - i
  {
    if i == |s| || IsSpace(s[i]) then i else WordRunEnd(s, i + 1)
  }

  /** The length of the whitespace run `s` starts with. */
  function LeadingSpace(s: string): (n: nat)
    ensures n <= |s|
    ensures forall i :: 0 <= i < n ==> IsSpace(s[i])
    ensures n == |s| || !IsSpace(s[n])
  {
    SpaceRunEnd(s, 0)
  }

  /** `trimStart()`: drops the leading whitespace run, so what is left is
      empty or starts with a non-whitespace character. */
  function TrimStart(s: string): (r: string)
    ensures r == s[LeadingSpace(s)..]
    ensures r == [] || !IsSpace(r[0])
  {
    s[LeadingSpace(s)..]
  }

  /** `trimEnd()`: drops the trailing whitespace. */
  function TrimEnd(s: string): (r: string)
    ensures |r| <= |s| && r == s[..|r|]
    ensures r == [] || !IsSpace(r[|r| - 1])
    ensures forall i :: |r| <= i < |s| ==> IsSpace(s[i])
  {
    if s != [] && IsSpace(s[|s| - 1]) then TrimEnd(s[..|s| - 1]) else s
  }

  /** `r` is the slice of `s` starting at `k`, and everything outside it is
      whitespace. */
  predicate TrimmedAt(s: string, r: string, k: int) {
    && 0 <= k && k + |r| <= |s| && r == s[k..k + |r|]
    && (forall i :: 0 <= i < k ==> IsSpace(s[i]))
    && (forall i :: k + |r| <= i < |s| ==> IsSpace(s[i]))
  }

  /** `trim()`: a contiguous slice of `s` whose ends are not whitespace, with
      only whitespace cut off on either side. */
  function Trim(s: string): (r: string)
    ensures exists k :: TrimmedAt(s, r, k)
    ensures r == [] || (!IsSpace(r[0]) && !IsSpace(r[|r| - 1]))
  {
    var a := TrimStart(s);
    var r := TrimEnd(a);
    TrimBothEnds(s, LeadingSpace(s), a, r);
    r
  }

  /** Cutting whitespace off the front and then off the back of what is
      left cuts only whitespace from `s`. */
  lemma TrimBothEnds(s: string, k: nat, a: string, r: string)
    requires k <= |s| && a == s[k..]
    requires forall i :: 0 <= i < k ==> IsSpace(s[i])
    requires |r| <= |a| && r == a[..|r|]
    requires forall i :: |r| <= i < |a| ==> IsSpace(a[i])
    ensures TrimmedAt(s, r, k)
  {
    assert r == s[k..k + |r|];
    forall i | k + |r| <= i < |s|
      ensures IsSpace(s[i])
    {
      assert s[i] == a[i - k];
    }
  }

  // --------------------------------------------------------------- split

  /** The longest whitespace-free prefix of `s` (possibly empty). */
  function Field(s: string): (w: string)
    ensures |w| <= |s| && w == s[..|w|] && NoSpace(w)
    ensures |w| == |s| || IsSpace(s[|w|])
  {
    s[..WordRunEnd(s, 0)]
  }

  /** `s.split(/\s+/)`: the pieces between maximal runs of whitespace. As in
      JavaScript, a leading (trailing) run yields an empty first (last)
      piece and the empty string splits into one empty piece. */
  function SplitWs(s: string): (r: seq<string>)
    ensures |r| >= 1
    ensures forall k :: 0 <= k < |r| ==> NoSpace(r[k])
    ensures forall k :: 0 < k < |r| - 1 ==> r[k] != []
    ensures r[0] == [] <==> (s == [] || IsSpace(s[0]))
    decreases |s|
  {
    var w := Field(s);
    var rest := s[|w|..];
    if rest == [] then [w]
    else
      var t := TrimStart(rest);
      [w] + SplitWs(t)
  }

  /** Concatenation of all pieces. */
  function Concat(ps: seq<string>): string {
    if ps == [] then [] else ps[0] + Concat(ps[1..])
  }

  /** The non-whitespace characters of `s`, in order. */
  function Unspaced(s: string): string {
    if s == [] then [] else (if IsSpace(s[0]) then [] else [s[0]]) + Unspaced(s[1..])
  }

  lemma {:induction false} UnspacedAppend(a: string, b: string)
    ensures Unspaced(a + b) == Unspaced(a) + Unspaced(b)
    decreases |a|
  {
    if a != [] {
      assert (a + b)[0] == a[0];
      assert (a + b)[1..] == a[1..] + b;
      UnspacedAppend(a[1..], b);
      var h: string := if IsSpace(a[0]) then [] else [a[0]];
      assert Unspaced(a + b) == h + Unspaced(a[1..] + b);
      assert Unspaced(a) == h + Unspaced(a[1..]);
    } else {
      assert a + b == b;
    }
  }

  lemma {:induction false} UnspacedOfSpaces(s: string)
    requires forall i :: 0 <= i < |s| ==> IsSpace(s[i])
    ensures Unspaced(s) == []
    decreases |s|
  {
    if s != [] {
      UnspacedOfSpaces(s[1..]);
    }
  }

  lemma {:induction false} UnspacedOfNoSpace(s: string)
    requires NoSpace(s)
    ensures Unspaced(s) == s
    decreases |s|
  {
    if s != [] {
      UnspacedOfNoSpace(s[1..]);
    }
  }

  /** Splitting loses exactly the whitespace: the pieces, put back together,
      are the non-whitespace characters of `s` in order. */
  lemma ConcatCons(w: string, ps: seq<string>)
    ensures Concat([w] + ps) == w + Concat(ps)
  {
    assert ([w] + ps)[1..] == ps;
  }

  /** Dropping leading whitespace keeps the non-whitespace text. */
  lemma UnspacedTrimStart(s: string)
    ensures Unspaced(TrimStart(s)) == Unspaced(s)
  {
    var k := LeadingSpace(s);
    assert s == s[..k] + TrimStart(s);
    UnspacedAppend(s[..k], TrimStart(s));
    UnspacedOfSpaces(s[..k]);
  }

  /** Splitting loses exactly the whitespace: the pieces, put back together,
      are the non-whitespace characters of `s` in order. */
  lemma {:induction false} SplitWsKeepsText(s: string)
    ensures Concat(SplitWs(s)) == Unspaced(s)
    decreases |s|
  {
    var w := Field(s);
    var rest := s[|w|..];
    assert s == w + rest;
    UnspacedAppend(w, rest);
    UnspacedOfNoSpace(w);
    if rest == [] {
      ConcatCons(w, []);
    } else {
      var t := TrimStart(rest);
      UnspacedTrimStart(rest);
      SplitWsKeepsText(t);
      ConcatCons(w, SplitWs(t));
    }
  }

  predicate AllSpace(s: string) {
    forall i :: 0 <= i < |s| ==> IsSpace(s[i])
  }

  /** `ps[0] + seps[0] + ps[1] + ... + ps[n]`: pieces glued by separators. */
  function Interleave(ps: seq<string>, seps: seq<string>): string
    requires |ps| == |seps| + 1
    decreases |seps|
  {
    if seps == [] then ps[0] else ps[0] + seps[0] + Interleave(ps[1..], seps[1..])
  }

  /** Splitting cuts `s` exactly at its maximal whitespace runs: `s` is the
      pieces glued back together by non-empty, all-whitespace separators.
      As the pieces hold no whitespace, the separators are the whole runs. */
  lemma {:induction false} SplitWsSeparators(s: string) returns (seps: seq<string>)
    ensures |seps| + 1 == |SplitWs(s)|
    ensures forall k :: 0 <= k < |seps| ==> seps[k] != [] && AllSpace(seps[k])
    ensures s == Interleave(SplitWs(s), seps)
    decreases |s|
  {
    var w := Field(s);
    var rest := s[|w|..];
    if rest == [] {
      WholeWord(s, w);
      assert SplitWs(s) == [w];
      seps := [];
    } else {
      var k := LeadingSpace(rest);
      var t := TrimStart(rest);
      SplitStep(s, w, rest, k, t);
      var more := SplitWsSeparators(t);
      seps := [rest[..k]] + more;
      forall j | 0 <= j < |seps|
        ensures seps[j] != [] && AllSpace(seps[j])
      {
        if j > 0 {
          assert seps[j] == more[j - 1];
        }
      }
      assert SplitWs(s) == [w] + SplitWs(t);
      InterleaveCons(s, w, rest[..k], t, SplitWs(s), SplitWs(t), more);
    }
  }

  /** Gluing a word and a separator in front of an interleaving. */
  lemma InterleaveCons(s: string, w: string, sep: string, t: string, ps: seq<string>, pt: seq<string>, seps: seq<string>)
    requires |pt| == |seps| + 1
    requires ps == [w] + pt && t == Interleave(pt, seps) && s == w + sep + t
    ensures s == Interleave(ps, [sep] + seps)
  {
    assert ps[1..] == pt && ([sep] + seps)[1..] == seps;
  }

  /** The last piece is empty exactly when `s` is empty or ends in
      whitespace, as JavaScript's split leaves a trailing empty string. */
  lemma {:induction false} SplitWsLastPiece(s: string)
    ensures SplitWs(s)[|SplitWs(s)| - 1] == [] <==> (s == [] || IsSpace(s[|s| - 1]))
    decreases |s|
  {
    var w := Field(s);
    var rest := s[|w|..];
    if rest == [] {
      WholeWord(s, w);
      assert SplitWs(s) == [w];
    } else {
      var k := LeadingSpace(rest);
      var t := TrimStart(rest);
      SplitStep(s, w, rest, k, t);
      StepEnd(s, w, rest, k, t);
      SplitWsLastPiece(t);
      assert SplitWs(s) == [w] + SplitWs(t);
      LastOfCons(SplitWs(s), w, SplitWs(t));
    }
  }

  /** A whitespace-free prefix that is all of `s` is `s`, empty exactly when
      `s` is empty or ends in whitespace. */
  lemma WholeWord(s: string, w: string)
    requires |w| <= |s| && w == s[..|w|] && NoSpace(w) && s[|w|..] == []
    ensures s == w
    ensures w == [] <==> (s == [] || IsSpace(s[|s| - 1]))
  {
    assert |w| == |s|;
    if s != [] {
      assert s[|s| - 1] == w[|w| - 1];
    }
  }

  /** One step of the split: `s` is its first word `w`, a non-empty run of
      whitespace `rest[..k]` and the remainder `t`, which is shorter. */
  lemma SplitStep(s: string, w: string, rest: string, k: nat, t: string)
    requires |w| <= |s| && w == s[..|w|] && (|w| == |s| || IsSpace(s[|w|]))
    requires rest == s[|w|..] && rest != []
    requires k <= |rest| && t == rest[k..]
    requires t == [] || !IsSpace(t[0])
    requires forall i :: 0 <= i < k ==> IsSpace(rest[i])
    ensures 0 < k && |t| < |s|
    ensures s == w + rest[..k] + t
    ensures AllSpace(rest[..k])
  {
    assert rest[0] == s[|w|];
    assert t != [] ==> t[0] == rest[k];
    assert s == w + rest && rest == rest[..k] + t;
  }

  /** What is left after a word and a whitespace run is empty or ends in
      whitespace exactly when `s` ends in whitespace. */
  lemma StepEnd(s: string, w: string, rest: string, k: nat, t: string)
    requires |w| <= |s| && rest == s[|w|..] && rest != []
    requires k <= |rest| && t == rest[k..]
    requires forall i :: 0 <= i < k ==> IsSpace(rest[i])
    ensures (t == [] || IsSpace(t[|t| - 1])) == IsSpace(s[|s| - 1])
  {
    assert s[|s| - 1] == rest[|rest| - 1];
    if t != [] {
      assert rest[|rest| - 1] == t[|t| - 1];
    } else {
      assert IsSpace(rest[|rest| - 1]);
    }
  }

  /** The last element of `[x] + q` is the last element of `q`. */
  lemma LastOfCons<T>(r: seq<T>, x: T, q: seq<T>)
    requires r == [x] + q && q != []
    ensures r[|r| - 1] == q[|q| - 1]
  {
  }

  /** A string with no whitespace at either end splits into non-empty words. */
  lemma {:induction false} SplitTrimmedHasNoEmptyPiece(s: string)
    requires s != [] && !IsSpace(s[0]) && !IsSpace(s[|s| - 1])
    ensures forall k :: 0 <= k < |SplitWs(s)| ==> SplitWs(s)[k] != []
    decreases |s|
  {
    var w := Field(s);
    var rest := s[|w|..];
    if rest != [] {
      var t := TrimStart(rest);
      assert t != [] by {
        assert !IsSpace(rest[|rest| - 1]);
      }
      SplitTrimmedHasNoEmptyPiece(t);
    }
  }

  /** `parts.join(sep)`. */
  function Join(parts: seq<string>, sep: string): (r: string)
    ensures parts == [] ==> r == []
    ensures |parts| == 1 ==> r == parts[0]
    ensures |parts| >= 1 ==> StartsWith(r, parts[0])
  {
    if parts == [] then []
    else if |parts| == 1 then parts[0]
    else parts[0] + sep + Join(parts[1..], sep)
  }

  /** The length of a join: the parts plus one separator between each pair. */
  lemma {:induction false} JoinLength(parts: seq<string>, sep: string)
    requires parts != []
    ensures |Join(parts, sep)| == |Concat(parts)| + (|parts| - 1) * |sep|
    decreases |parts|
  {
    if |parts| > 1 {
      JoinLength(parts[1..], sep);
    }
  }

  /** Where `parts[k]` starts in `Join(parts, sep)`: every earlier part and
      its separator come before it. */
  function JoinOffset(parts: seq<string>, sep: string, k: nat): nat
    requires k <= |parts|
  {
    if k == 0 then 0 else |parts[0]| + |sep| + JoinOffset(parts[1..], sep, k - 1)
  }

  /** An occurrence survives putting text in front. */
  lemma OccursAfterPrefix(prefix: string, s: string, p: string, i: int)
    requires OccursAt(s, p, i)
    ensures OccursAt(prefix + s, p, |prefix| + i)
  {
    assert (prefix + s)[|prefix| + i..|prefix| + i + |p|] == s[i..i + |p|];
  }

  /** `p` occurs in `a + p + b` right after `a`. */
  lemma OccursBetween(a: string, p: string, b: string)
    ensures OccursAt(a + p + b, p, |a|) && Contains(a + p + b, p)
  {
    var s := a + p + b;
    assert s[|a|..|a| + |p|] == p;
    assert OccursAt(s, p, |a|);
    assert Contains(s, p);
  }

  /** Concatenation splits at any index. */
  lemma {:induction false} ConcatSplit(ps: seq<string>, n: nat)
    requires n <= |ps|
    ensures Concat(ps) == Concat(ps[..n]) + Concat(ps[n..])
    decreases n
  {
    if n == 0 {
      assert ps[n..] == ps;
    } else {
      ConcatSplit(ps[1..], n - 1);
      assert ps[..n][1..] == ps[1..][..n - 1];
      assert ps[1..][n - 1..] == ps[n..];
    }
  }

  /** Each piece occurs in the concatenation of the pieces. */
  lemma {:induction false} ConcatHasPiece(ps: seq<string>, k: nat)
    requires k < |ps|
    ensures Contains(Concat(ps), ps[k])
    decreases k
  {
    var rest := Concat(ps[1..]);
    if k == 0 {
      OccursBetween([], ps[0], rest);
      assert [] + ps[0] + rest == Concat(ps);
    } else {
      ConcatHasPiece(ps[1..], k - 1);
      var i :| OccursAt(rest, ps[k], i);
      OccursAfterPrefix(ps[0], rest, ps[k], i);
      assert OccursAt(Concat(ps), ps[k], |ps[0]| + i);
    }
  }

  /** The join holds each part at its offset, followed by the separator
      unless it is the last part. */
  lemma {:induction false} JoinPlacesParts(parts: seq<string>, sep: string, k: nat)
    requires k < |parts|
    ensures OccursAt(Join(parts, sep), parts[k], JoinOffset(parts, sep, k))
    ensures k + 1 < |parts| ==> OccursAt(Join(parts, sep), sep, JoinOffset(parts, sep, k) + |parts[k]|)
    decreases k
  {
    var j := Join(parts, sep);
    if |parts| == 1 {
      assert OccursAt(j, parts[0], 0);
    } else {
      var rest := Join(parts[1..], sep);
      assert j == parts[0] + sep + rest;
      if k == 0 {
        assert j == parts[0] + (sep + rest);
        assert j[..|parts[0]|] == parts[0];
        OccursBetween(parts[0], sep, rest);
      } else {
        JoinPlacesParts(parts[1..], sep, k - 1);
        OccursAfterPrefix(parts[0] + sep, rest, parts[k], JoinOffset(parts[1..], sep, k - 1));
        if k + 1 < |parts| {
          OccursAfterPrefix(parts[0] + sep, rest, sep, JoinOffset(parts[1..], sep, k - 1) + |parts[k]|);
        }
      }
    }
  }

  /** `s.replace(/a/g, b)` for single characters. */
  function ReplaceChar(s: string, a: char, b: char): (r: string)
    ensures |r| == |s|
    ensures forall i :: 0 <= i < |s| ==> r[i] == if s[i] == a then b else s[i]
  {
    seq(|s|, i requires 0 <= i < |s| => if s[i] == a then b else s[i])
  }

  // ------------------------------------------------------------- lengths

  /** JavaScript's `length`: UTF-16 code units, two for a character outside
      the Basic Multilingual Plane. */
  function JsLength(s: string): (n: nat)
    ensures |s| <= n <= 2 * |s|
  {
    if s == [] then 0 else (if s[0] as int > 0xFFFF then 2 else 1) + JsLength(s[1..])
  }

  // ------------------------------------------------------------- numbers

  predicate IsDigit(c: char) {
    '0' <= c <= '9'
  }

  function DigitChar(d: nat): char
    requires d < 10
  {
    ('0' as int + d) as char
  }

  /** Decimal rendering of a whole number, as `String(n)` prints it. */
  function NatToString(n: nat): (r: string)
    ensures r != [] && forall i :: 0 <= i < |r| ==> IsDigit(r[i])
    ensures r[0] == '0' ==> n == 0
  {
    if n < 10 then [DigitChar(n)] else NatToString(n / 10) + [DigitChar(n % 10)]
  }

  /** Decimal rendering of an integer, with a leading '-' when negative. */
  function IntToString(n: int): string {
    if n < 0 then "-" + NatToString(-n) else NatToString(n)
  }

  /** Reads a string of decimal digits back into a number. */
  function ParseNat(s: string): nat
    requires forall i :: 0 <= i < |s| ==> IsDigit(s[i])
  {
    if s == [] then 0 else ParseNat(s[..|s| - 1]) * 10 + DigitValue(s[|s| - 1])
  }

  function DigitValue(c: char): (d: nat)
    requires IsDigit(c)
    ensures d < 10
  {
    c as int - '0' as int
  }

  lemma {:induction false} ParseNatToString(n: nat)
    ensures ParseNat(NatToString(n)) == n
  {
    if n >= 10 {
      var s := NatToString(n);
      assert s[..|s| - 1] == NatToString(n / 10);
      ParseNatToString(n / 10);
    }
  }

  /** Distinct numbers render differently. */
  lemma NatToStringInjective(m: nat, n: nat)
    requires NatToString(m) == NatToString(n)
    ensures m == n
  {
    ParseNatToString(m);
    ParseNatToString(n);
  }
}
