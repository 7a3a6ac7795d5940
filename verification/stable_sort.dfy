/** A stable sort by an integer key: what `Array.prototype.sort` (stable
    since ECMAScript 2019) computes with a comparator `(a, b) => key(a) - key(b)`.

    Stability is stated as: for every key value `k`, the elements with key
    `k` appear in the output in exactly the order they had in the input.
    `SortedStableIsUnique` shows that sortedness, stability and the length
    determine the output completely, so any stable sort agrees with `SortBy`.
 */
module StableSort {
  import opened Seqs

  predicate SortedBy<T>(s: seq<T>, key: T -> int) {
    forall i, j :: 0 <= i < j < |s| ==> key(s[i]) <= key(s[j])
  }

  /** The elements of `s` whose key is `k`, in their order in `s`. */
  function WithKey<T>(s: seq<T>, key: T -> int, k: int): seq<T> {
    Filter(s, x => key(x) == k)
  }

  /** Insert `x` before the first element whose key is not smaller. */
  function Insert<T>(x: T, s: seq<T>, key: T -> int): (r: seq<T>)
    ensures |r| == |s| + 1
    ensures multiset(r) == multiset(s) + multiset{x}
    ensures forall i :: 0 <= i < |r| ==> r[i] == x || r[i] in s
  {
    if |s| == 0 then [x]
    else if key(x) <= key(s[0]) then [x] + s
    else
      var rest := Insert(x, s[1..], key);
      assert s == [s[0]] + s[1..];
      [s[0]] + rest
  }

  lemma {:induction false} InsertSorted<T>(x: T, s: seq<T>, key: T -> int)
    requires SortedBy(s, key)
    ensures SortedBy(Insert(x, s, key), key)
    decreases |s|
  {
    if |s| > 0 && key(x) > key(s[0]) {
      InsertSorted(x, s[1..], key);
      var rest := Insert(x, s[1..], key);
      forall i | 0 <= i < |rest| ensures key(s[0]) <= key(rest[i]) {
        if rest[i] != x {
          assert rest[i] in s[1..];
        }
      }
    }
  }

  /** Insertion sort, taking the elements front to back. */
  function SortBy<T>(s: seq<T>, key: T -> int): (r: seq<T>)
    ensures |r| == |s|
    ensures multiset(r) == multiset(s)
    ensures SortedBy(r, key)
  {
    if |s| == 0 then []
    else
      assert s == [s[0]] + s[1..];
      var rest := SortBy(s[1..], key);
      InsertSorted(s[0], rest, key);
      Insert(s[0], rest, key)
  }

  lemma WithKeyCons<T>(x: T, s: seq<T>, key: T -> int, k: int)
    ensures WithKey([x] + s, key, k) == (if key(x) == k then [x] else []) + WithKey(s, key, k)
  {
    assert ([x] + s)[0] == x;
    assert ([x] + s)[1..] == s;
  }

  /** Inserting `x` places it, among the elements of its key, before all of
      them, and moves no element of another key past another of that key. */
  lemma {:induction false} InsertWithKey<T>(x: T, s: seq<T>, key: T -> int, k: int)
    ensures WithKey(Insert(x, s, key), key, k) == (if key(x) == k then [x] else []) + WithKey(s, key, k)
    decreases |s|
  {
    if |s| == 0 {
      WithKeyCons(x, s, key, k);
      assert Insert(x, s, key) == [x] + s;
    } else if key(x) <= key(s[0]) {
      WithKeyCons(x, s, key, k);
    } else {
      InsertWithKey(x, s[1..], key, k);
      WithKeyCons(s[0], Insert(x, s[1..], key), key, k);
      WithKeyCons(s[0], s[1..], key, k);
      assert [s[0]] + s[1..] == s;
    }
  }

  /** `SortBy` is stable. */
  lemma {:induction false} SortByStable<T>(s: seq<T>, key: T -> int, k: int)
    ensures WithKey(SortBy(s, key), key, k) == WithKey(s, key, k)
    decreases |s|
  {
    if |s| > 0 {
      SortByStable(s[1..], key, k);
      InsertWithKey(s[0], SortBy(s[1..], key), key, k);
      WithKeyCons(s[0], s[1..], key, k);
      assert [s[0]] + s[1..] == s;
    }
  }

  /** A sequence that is already sorted is left as it is. */
  lemma {:induction false} SortBySorted<T>(s: seq<T>, key: T -> int)
    requires SortedBy(s, key)
    ensures SortBy(s, key) == s
    decreases |s|
  {
    if |s| > 0 {
      SortBySorted(s[1..], key);
      assert SortBy(s[1..], key) == s[1..];
      if |s| > 1 {
        assert key(s[0]) <= key(s[1]);
      }
      assert [s[0]] + s[1..] == s;
    }
  }

  /** The first element of a sorted sequence carries its least key, and it
      is the first element with that key. */
  lemma SortedHead<T>(a: seq<T>, key: T -> int, k: int)
    requires SortedBy(a, key) && |a| > 0 && k == key(a[0])
    ensures WithKey(a, key, k) == [a[0]] + WithKey(a[1..], key, k)
  {
    WithKeyCons(a[0], a[1..], key, k);
    assert [a[0]] + a[1..] == a;
  }

  lemma {:induction false} WithKeyEmptyMeansAbsent<T>(s: seq<T>, key: T -> int, i: int)
    requires 0 <= i < |s|
    ensures WithKey(s, key, key(s[i])) != []
  {
    var k := key(s[i]);
    assert s[i] in WithKey(s, key, k);
  }

  /** Two sorted sequences with the same elements per key are equal: a
      stable sort has exactly one possible output. */
  lemma {:induction false} SortedStableIsUnique<T>(a: seq<T>, b: seq<T>, key: T -> int)
    requires SortedBy(a, key) && SortedBy(b, key)
    requires forall k :: WithKey(a, key, k) == WithKey(b, key, k)
    ensures a == b
    decreases |a| + |b|
  {
    if |a| == 0 && |b| == 0 {
      return;
    }
    if |a| == 0 {
      WithKeyEmptyMeansAbsent(b, key, 0);
      return;
    }
    if |b| == 0 {
      WithKeyEmptyMeansAbsent(a, key, 0);
      return;
    }
    HeadsAgree(a, b, key);
    TailsAgree(a, b, key);
    SortedStableIsUnique(a[1..], b[1..], key);
    assert a == [a[0]] + a[1..];
    assert b == [b[0]] + b[1..];
  }

  /** Sorted sequences with the same elements per key start alike: each
      head's key occurs in the other sequence, whose head key is least, and
      a head is the first element with its key. */
  lemma HeadsAgree<T>(a: seq<T>, b: seq<T>, key: T -> int)
    requires |a| > 0 && |b| > 0
    requires SortedBy(a, key) && SortedBy(b, key)
    requires forall k :: WithKey(a, key, k) == WithKey(b, key, k)
    ensures a[0] == b[0]
  {
    var ka, kb := key(a[0]), key(b[0]);
    assert ka == kb by {
      assert b[0] in WithKey(b, key, kb);
      assert b[0] in WithKey(a, key, kb);
      assert a[0] in WithKey(a, key, ka);
      assert a[0] in WithKey(b, key, ka);
      assert b[0] in a && a[0] in b;
    }
    SortedHead(a, key, ka);
    SortedHead(b, key, ka);
    assert WithKey(a, key, ka) == WithKey(b, key, ka);
    assert a[0] == WithKey(a, key, ka)[0];
  }

  /** Dropping equal heads keeps the elements per key equal. */
  lemma TailsAgree<T>(a: seq<T>, b: seq<T>, key: T -> int)
    requires |a| > 0 && |b| > 0 && a[0] == b[0]
    requires forall k :: WithKey(a, key, k) == WithKey(b, key, k)
    ensures forall k :: WithKey(a[1..], key, k) == WithKey(b[1..], key, k)
  {
    forall k
      ensures WithKey(a[1..], key, k) == WithKey(b[1..], key, k)
    {
      WithKeyCons(a[0], a[1..], key, k);
      WithKeyCons(b[0], b[1..], key, k);
      assert [a[0]] + a[1..] == a;
      assert [b[0]] + b[1..] == b;
      var pre := if key(a[0]) == k then [a[0]] else [];
      assert WithKey(a, key, k) == WithKey(b, key, k);
      assert WithKey(a[1..], key, k) == WithKey(a, key, k)[|pre|..];
      assert WithKey(b[1..], key, k) == WithKey(b, key, k)[|pre|..];
    }
  }
}
