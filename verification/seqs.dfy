/** Sequence operations with JavaScript array semantics: `filter`, `slice`,
    `splice(i, 1)`, `reduce` to a sum, and `Array.from(new Set(...))`. */
module Seqs {

  /** `s.filter(p)`: the elements of `s` satisfying `p`, in their order. */
  function Filter<T>(s: seq<T>, p: T -> bool): (r: seq<T>)
    ensures |r| <= |s|
    ensures forall i :: 0 <= i < |r| ==> r[i] in s && p(r[i])
    ensures forall i :: 0 <= i < |s| && p(s[i]) ==> s[i] in r
  {
    if |s| == 0 then []
    else (if p(s[0]) then [s[0]] else []) + Filter(s[1..], p)
  }

  /** `xs.map(f)`. */
  function Map<T, U>(xs: seq<T>, f: T -> U): (r: seq<U>)
    ensures |r| == |xs| && forall i :: 0 <= i < |xs| ==> r[i] == f(xs[i])
  {
    seq(|xs|, i requires 0 <= i < |xs| => f(xs[i]))
  }

  /** `a` is `b` with some elements dropped, the rest kept in order. */
  predicate IsSubsequence<T(==)>(a: seq<T>, b: seq<T>)
    decreases |b|
  {
    |a| == 0 || (|b| > 0 && ((a[0] == b[0] && IsSubsequence(a[1..], b[1..])) || IsSubsequence(a, b[1..])))
  }

  lemma {:induction false} FilterIsSubsequence<T>(s: seq<T>, p: T -> bool)
    ensures IsSubsequence(Filter(s, p), s)
    decreases |s|
  {
    if |s| > 0 {
      FilterIsSubsequence(s[1..], p);
      var rest := Filter(s[1..], p);
      if p(s[0]) {
        assert Filter(s, p) == [s[0]] + rest;
        assert ([s[0]] + rest)[1..] == rest;
      } else {
        assert Filter(s, p) == rest;
      }
    }
  }

  /** Filtering keeps every copy of an element that passes and drops every
      copy of one that does not. */
  lemma {:induction false} FilterMultiset<T>(s: seq<T>, p: T -> bool)
    ensures forall x :: multiset(Filter(s, p))[x] == if p(x) then multiset(s)[x] else 0
    decreases |s|
  {
    if |s| > 0 {
      FilterMultiset(s[1..], p);
      assert s == [s[0]] + s[1..];
      assert multiset(s) == multiset([s[0]]) + multiset(s[1..]);
    }
  }

  /** Filtering with a predicate that keeps everything changes nothing. */
  lemma {:induction false} FilterKeepAll<T>(s: seq<T>, p: T -> bool)
    requires forall x :: x in s ==> p(x)
    ensures Filter(s, p) == s
    decreases |s|
  {
    if |s| > 0 {
      assert forall x :: x in s[1..] ==> x in s;
      FilterKeepAll(s[1..], p);
      assert p(s[0]);
      assert [s[0]] + s[1..] == s;
    }
  }

  /** Every sequence is a subsequence of itself. */
  lemma IsSubsequenceRefl<T>(s: seq<T>)
    ensures IsSubsequence(s, s)
  {
    FilterKeepAll(s, (x: T) => true);
    FilterIsSubsequence(s, (x: T) => true);
  }

  /** Two predicates that agree on the elements of `s` filter it alike. */
  lemma {:induction false} FilterExt<T>(s: seq<T>, p: T -> bool, q: T -> bool)
    requires forall x :: x in s ==> p(x) == q(x)
    ensures Filter(s, p) == Filter(s, q)
    decreases |s|
  {
    if |s| > 0 {
      FilterExt(s[1..], p, q);
    }
  }

  /** Filtering twice is filtering once by the conjunction. */
  lemma {:induction false} FilterCompose<T>(s: seq<T>, p: T -> bool, q: T -> bool, pq: T -> bool)
    requires forall x :: x in s ==> pq(x) == (p(x) && q(x))
    ensures Filter(Filter(s, p), q) == Filter(s, pq)
    decreases |s|
  {
    if |s| > 0 {
      FilterCompose(s[1..], p, q, pq);
      FilterAppend((if p(s[0]) then [s[0]] else []), Filter(s[1..], p), q);
    }
  }

  lemma {:induction false} FilterAppend<T>(a: seq<T>, b: seq<T>, p: T -> bool)
    ensures Filter(a + b, p) == Filter(a, p) + Filter(b, p)
    decreases |a|
  {
    if |a| > 0 {
      FilterAppend(a[1..], b, p);
      assert (a + b)[1..] == a[1..] + b;
    } else {
      assert a + b == b;
    }
  }

  /** The order in which two filters are applied does not matter. */
  lemma FilterCommutes<T>(s: seq<T>, p: T -> bool, q: T -> bool)
    ensures Filter(Filter(s, p), q) == Filter(Filter(s, q), p)
  {
    var pq := x => p(x) && q(x);
    FilterCompose(s, p, q, pq);
    FilterCompose(s, q, p, pq);
  }

  /** `x` survives `s.filter(p)` exactly when it is in `s` and satisfies `p`. */
  lemma FilterMember<T>(s: seq<T>, p: T -> bool, x: T)
    ensures x in Filter(s, p) <==> x in s && p(x)
  {
    var r := Filter(s, p);
    if x in r {
      var i :| 0 <= i < |r| && r[i] == x;
    }
    if x in s && p(x) {
      var i :| 0 <= i < |s| && s[i] == x;
    }
  }

  /** `if (on) list = list.filter(p)`. */
  function FilterIf<T>(s: seq<T>, on: bool, p: T -> bool): seq<T> {
    if on then Filter(s, p) else s
  }

  /** A conditional filter after a filter is one filter by the combined
      test. */
  lemma FilterIfCompose<T>(s: seq<T>, a: T -> bool, on: bool, p: T -> bool, ap: T -> bool)
    requires forall x :: x in s ==> ap(x) == (a(x) && (!on || p(x)))
    ensures FilterIf(Filter(s, a), on, p) == Filter(s, ap)
  {
    if on {
      FilterCompose(s, a, p, ap);
    } else {
      FilterExt(s, a, ap);
    }
  }

  /** A conditional filter on its own is a filter by the test it applies. */
  lemma FilterIfBase<T>(s: seq<T>, on: bool, p: T -> bool, q: T -> bool)
    requires forall x :: x in s ==> q(x) == (!on || p(x))
    ensures FilterIf(s, on, p) == Filter(s, q)
  {
    if on {
      FilterExt(s, p, q);
    } else {
      FilterKeepAll(s, q);
    }
  }

  /** `s.reduce((acc, x) => acc + f(x), 0)`. */
  function SumBy<T>(s: seq<T>, f: T -> int): int {
    if |s| == 0 then 0 else SumBy(s[..|s| - 1], f) + f(s[|s| - 1])
  }

  lemma {:induction false} SumByAppend<T>(a: seq<T>, b: seq<T>, f: T -> int)
    ensures SumBy(a + b, f) == SumBy(a, f) + SumBy(b, f)
    decreases |b|
  {
    if |b| == 0 {
      assert a + b == a;
    } else {
      SumByAppend(a, b[..|b| - 1], f);
      assert (a + b)[..|a + b| - 1] == a + b[..|b| - 1];
    }
  }

  /** Adding a non-negative term never decreases a sum of non-negative terms. */
  lemma {:induction false} SumByNonNegative<T>(s: seq<T>, f: T -> int)
    requires forall x :: x in s ==> f(x) >= 0
    ensures SumBy(s, f) >= 0
    decreases |s|
  {
    if |s| > 0 {
      SumByNonNegative(s[..|s| - 1], f);
    }
  }

  /** A JavaScript relative index (`slice`/`splice` argument) resolved
      against a length: negative values count back from the end; the result
      lies in `[0, len]`. */
  function RelIndex(k: int, len: nat): (r: nat)
    ensures r <= len
    ensures 0 <= k ==> r == if k < len then k else len
    ensures k < 0 ==> r == if len + k > 0 then len + k else 0
  {
    if k < 0 then (if len + k > 0 then len + k else 0)
    else if k < len then k else len
  }

  /** `s.slice(start, end)`: the elements from the resolved start up to,
      not including, the resolved end; nothing when the end does not lie
      past the start. */
  function JsSlice<T>(s: seq<T>, start: int, end: int): (r: seq<T>)
    ensures var a := RelIndex(start, |s|); var b := RelIndex(end, |s|);
      && |r| == (if a < b then b - a else 0)
      && forall i :: 0 <= i < |r| ==> r[i] == s[a + i]
  {
    var a := RelIndex(start, |s|);
    var b := RelIndex(end, |s|);
    if a < b then s[a..b] else []
  }

  /** A window of non-negative bounds: `slice(start, end)` with
      `0 <= start <= end` is the part of `s[start..end]` that exists. */
  lemma JsSliceWindow<T>(s: seq<T>, start: int, end: int)
    requires 0 <= start <= end
    ensures start <= |s| ==> JsSlice(s, start, end) == s[start..if end < |s| then end else |s|]
    ensures start >= |s| ==> JsSlice(s, start, end) == []
    ensures |JsSlice(s, start, end)| <= end - start
  {
  }

  /** A negative start counts back from the end: `slice(-k, length)` is
      the last `k` elements. */
  lemma JsSliceFromEnd<T>(s: seq<T>, k: int)
    requires 0 < k <= |s|
    ensures JsSlice(s, -k, |s|) == s[|s| - k..]
  {
  }

  /** `arr.splice(index, 1)` applied to a copy: the element at the resolved
      index is removed when there is one. */
  function Splice1<T>(s: seq<T>, index: int): (r: seq<T>)
    ensures 0 <= index < |s| ==> r == s[..index] + s[index + 1..]
    ensures index >= |s| ==> r == s
    ensures -|s| <= index < 0 ==> r == s[..|s| + index] + s[|s| + index + 1..]
    ensures index < -|s| && |s| > 0 ==> r == s[1..]
  {
    var k := RelIndex(index, |s|);
    if k < |s| then s[..k] + s[k + 1..] else s
  }

  /** Element `i` of the spliced sequence is element `i` of the original
      before the removed position, and the next one from there on. */
  lemma SpliceAt<T>(s: seq<T>, index: int, i: int)
    requires 0 <= i < |Splice1(s, index)|
    ensures var k := RelIndex(index, |s|);
      Splice1(s, index)[i] == s[if i < k then i else i + 1]
  {
  }

  predicate Distinct<T(==)>(s: seq<T>) {
    forall i, j :: 0 <= i < j < |s| ==> s[i] != s[j]
  }

  /** The position of the first occurrence of `x` in `s`. */
  function FirstIndex<T(==)>(s: seq<T>, x: T): (r: nat)
    requires x in s
    ensures r < |s| && s[r] == x
    ensures forall k :: 0 <= k < r ==> s[k] != x
  {
    if s[0] == x then 0 else 1 + FirstIndex(s[1..], x)
  }

  /** Appending an element does not move the first occurrence of anything
      already there, and the first occurrence of a new element is the end. */
  lemma FirstIndexAppend<T>(p: seq<T>, x: T, y: T)
    requires y in p + [x]
    ensures y in p ==> FirstIndex(p + [x], y) == FirstIndex(p, y)
    ensures y !in p ==> FirstIndex(p + [x], y) == |p|
  {
    var k := FirstIndex(p + [x], y);
    if y in p {
      assert (p + [x])[FirstIndex(p, y)] == y;
    }
  }

  /** `Array.from(new Set(s))`: the first occurrence of every element, in
      order of first occurrence. */
  function Dedupe<T(==)>(s: seq<T>): (r: seq<T>)
    ensures Distinct(r)
    ensures forall i :: 0 <= i < |r| ==> r[i] in s
    ensures forall i :: 0 <= i < |s| ==> s[i] in r
  {
    if |s| == 0 then []
    else
      var d := Dedupe(s[..|s| - 1]);
      var x := s[|s| - 1];
      if x in d then d else d + [x]
  }

  /** The deduplication lists the elements in the order of their first
      occurrence in `s`. */
  lemma {:induction false} DedupeOrder<T>(s: seq<T>)
    ensures forall i, j :: 0 <= i < j < |Dedupe(s)| ==>
      FirstIndex(s, Dedupe(s)[i]) < FirstIndex(s, Dedupe(s)[j])
    decreases |s|
  {
    if |s| > 0 {
      var p, x := s[..|s| - 1], s[|s| - 1];
      var d, r := Dedupe(p), Dedupe(s);
      DedupeOrder(p);
      assert s == p + [x];
      forall i, j | 0 <= i < j < |r| ensures FirstIndex(s, r[i]) < FirstIndex(s, r[j]) {
        assert r[i] == d[i] && d[i] in p;
        FirstIndexAppend(p, x, r[i]);
        FirstIndexAppend(p, x, r[j]);
        if j < |d| {
          assert r[j] == d[j] && d[j] in p;
        } else {
          assert x !in d && r[j] == x;
        }
      }
    }
  }

  /** Deduplication keeps exactly the elements there are. */
  lemma DedupeMembers<T>(s: seq<T>)
    ensures forall x :: x in Dedupe(s) <==> x in s
  {
    forall x | x in Dedupe(s) ensures x in s {
      var i :| 0 <= i < |Dedupe(s)| && Dedupe(s)[i] == x;
    }
    forall x | x in s ensures x in Dedupe(s) {
      var i :| 0 <= i < |s| && s[i] == x;
    }
  }

  /** Deduplicating a longer sequence only appends to the deduplication of
      its prefix. */
  lemma {:induction false} DedupeExtends<T>(a: seq<T>, b: seq<T>)
    ensures |Dedupe(a)| <= |Dedupe(a + b)|
    ensures Dedupe(a + b)[..|Dedupe(a)|] == Dedupe(a)
    decreases |b|
  {
    if |b| == 0 {
      assert a + b == a;
    } else {
      var b' := b[..|b| - 1];
      DedupeExtends(a, b');
      assert (a + b)[..|a + b| - 1] == a + b';
    }
  }

  /** A sequence without duplicates is its own deduplication. */
  lemma {:induction false} DedupeOfDistinct<T>(s: seq<T>)
    requires Distinct(s)
    ensures Dedupe(s) == s
    decreases |s|
  {
    if |s| > 0 {
      var p := s[..|s| - 1];
      DedupeOfDistinct(p);
      assert s[|s| - 1] !in p;
      assert p + [s[|s| - 1]] == s;
    }
  }
}
