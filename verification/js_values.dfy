/** JavaScript truthiness for the optional fields of the records the
    storefront reads from JSON.

    A missing field (`undefined` or `null`) is `None`. JSON carries no `NaN`,
    so for numbers read from the backend `None` means missing; where the
    frontend itself produces `NaN` (`parseInt` of a quantity field) `None`
    stands for it too, and it is falsy like a missing value.
 */
module JsValues {
  import opened Wrappers
  import opened Text
  import opened Seqs

  /** A string is truthy when it is present and not empty. */
  predicate Truthy(o: Option<String>) {
    o.Some? && o.value != ""
  }

  /** `o || fallback` for a string. */
  function StrOr(o: Option<String>, fallback: String): String {
    if Truthy(o) then o.value else fallback
  }

  /** A number is truthy when it is present and not zero. */
  predicate NumTruthy(o: Option<int>) {
    o.Some? && o.value != 0
  }

  /** `o || fallback` for a number. */
  function NumOr(o: Option<int>, fallback: int): int {
    if NumTruthy(o) then o.value else fallback
  }

  /** `o || 0` and `o ?? 0` agree on numbers: both give the value when it is
      present (a present zero is zero either way). */
  lemma NumOrZeroIsCoalesce(o: Option<int>)
    ensures NumOr(o, 0) == o.GetOr(0)
  {
  }

  /** `xs.filter(Boolean)` on strings: the present, non-empty values, in
      order. */
  function Truthies(xs: seq<Option<String>>): (r: seq<String>)
    ensures |r| <= |xs|
    ensures forall x :: x in r <==> x != "" && Some(x) in xs
  {
    if |xs| == 0 then []
    else
      assert xs == [xs[0]] + xs[1..];
      (if Truthy(xs[0]) then [xs[0].value] else []) + Truthies(xs[1..])
  }

  /** Each string as a present value. */
  function Present(r: seq<String>): (o: seq<Option<String>>)
    ensures |o| == |r| && forall i :: 0 <= i < |r| ==> o[i] == Some(r[i])
  {
    seq(|r|, i requires 0 <= i < |r| => Some(r[i]))
  }

  /** `filter(Boolean)` keeps its values in their order: they form a
      subsequence of the input. */
  lemma {:induction false} TruthiesIsSubsequence(xs: seq<Option<String>>)
    ensures IsSubsequence(Present(Truthies(xs)), xs)
    decreases |xs|
  {
    if |xs| > 0 {
      TruthiesIsSubsequence(xs[1..]);
      var rest := Truthies(xs[1..]);
      if Truthy(xs[0]) {
        var a := Present(Truthies(xs));
        assert Truthies(xs) == [xs[0].value] + rest;
        assert a[0] == xs[0] && a[1..] == Present(rest);
      } else {
        assert Truthies(xs) == rest;
      }
    }
  }

  /** Two values come in the same order after `filter(Boolean)` as their
      first occurrences in the input. */
  lemma {:induction false} TruthiesOrder(xs: seq<Option<String>>, c: String, d: String)
    requires c in Truthies(xs) && d in Truthies(xs)
    ensures FirstIndex(Truthies(xs), c) < FirstIndex(Truthies(xs), d) <==>
      FirstIndex(xs, Some(c)) < FirstIndex(xs, Some(d))
    decreases |xs|
  {
    var t, rest := Truthies(xs), Truthies(xs[1..]);
    if Truthy(xs[0]) {
      var v := xs[0].value;
      assert t == [v] + rest && t[0] == v && t[1..] == rest;
      if c != v && d != v {
        TruthiesOrder(xs[1..], c, d);
      }
    } else {
      assert t == rest;
      assert xs[0] != Some(c) && xs[0] != Some(d);
      TruthiesOrder(xs[1..], c, d);
    }
  }

  /** `Array.from(new Set(xs.filter(Boolean)))`: the distinct truthy values
      in the order of their first occurrence in `xs`. */
  lemma DedupeTruthiesOrder(xs: seq<Option<String>>)
    ensures forall i :: 0 <= i < |Dedupe(Truthies(xs))| ==>
      Dedupe(Truthies(xs))[i] != "" && Some(Dedupe(Truthies(xs))[i]) in xs
    ensures forall i, j :: 0 <= i < j < |Dedupe(Truthies(xs))| ==>
      FirstIndex(xs, Some(Dedupe(Truthies(xs))[i])) < FirstIndex(xs, Some(Dedupe(Truthies(xs))[j]))
  {
    var t := Truthies(xs);
    var r := Dedupe(t);
    DedupeOrder(t);
    forall i, j | 0 <= i < j < |r| ensures FirstIndex(xs, Some(r[i])) < FirstIndex(xs, Some(r[j])) {
      TruthiesOrder(xs, r[i], r[j]);
    }
  }
}
