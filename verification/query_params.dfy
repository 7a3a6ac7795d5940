/** `URLSearchParams` as an ordered list of name/value pairs: `set`, `get`
    and `toString`, which form-encodes every name and value. */
module QueryParams {
  import opened Wrappers
  import opened Text
  import opened FormEncoding

  type Params = seq<(String, String)>

  function Names(ps: Params): seq<String> {
    seq(|ps|, i requires 0 <= i < |ps| => ps[i].0)
  }

  /** The pairs whose name is not `k`, in order. */
  function Without(ps: Params, k: String): (r: Params)
    ensures |r| <= |ps|
    ensures forall i :: 0 <= i < |r| ==> r[i] in ps && r[i].0 != k
  {
    if |ps| == 0 then []
    else (if ps[0].0 != k then [ps[0]] else []) + Without(ps[1..], k)
  }

  /** `params.get(k)`: the value of the first pair named `k`. */
  function Get(ps: Params, k: String): Option<String> {
    if |ps| == 0 then None
    else if ps[0].0 == k then Some(ps[0].1)
    else Get(ps[1..], k)
  }

  /** Reading a three-pair list: the first pair with the name wins. */
  lemma GetOfThree(x: (String, String), y: (String, String), z: (String, String), k: String)
    ensures Get([x, y, z], k) ==
      if x.0 == k then Some(x.1) else if y.0 == k then Some(y.1) else if z.0 == k then Some(z.1) else None
  {
    assert [x, y, z][1..] == [y, z];
    assert Get([x, y, z], k) == if x.0 == k then Some(x.1) else Get([y, z], k);
    assert [y, z][1..] == [z];
    assert Get([y, z], k) == if y.0 == k then Some(y.1) else Get([z], k);
    assert [z][1..] == [];
    assert Get([z], k) == if z.0 == k then Some(z.1) else Get([], k);
  }

  /** `params.set(k, v)`: the first pair named `k` takes the value `v` and
      keeps its place, later pairs of that name are dropped; without such a
      pair, `(k, v)` is appended. */
  function Set(ps: Params, k: String, v: String): Params {
    if |ps| == 0 then [(k, v)]
    else if ps[0].0 == k then [(k, v)] + Without(ps[1..], k)
    else [ps[0]] + Set(ps[1..], k, v)
  }

  lemma {:induction false} GetWithout(ps: Params, k: String, j: String)
    requires j != k
    ensures Get(Without(ps, k), j) == Get(ps, j)
    ensures Get(Without(ps, k), k) == None
    decreases |ps|
  {
    if |ps| > 0 {
      GetWithout(ps[1..], k, j);
      var w := Without(ps[1..], k);
      if ps[0].0 != k {
        assert Without(ps, k) == [ps[0]] + w;
        assert ([ps[0]] + w)[1..] == w;
      } else {
        assert Without(ps, k) == w;
      }
    }
  }

  /** After `set(k, v)`, `get(k)` gives `v` and every other name reads as
      before; removing `k` from the result gives the original without `k`,
      so no other pair moves. */
  lemma {:induction false} SetSpec(ps: Params, k: String, v: String)
    ensures Get(Set(ps, k, v), k) == Some(v)
    ensures forall j :: j != k ==> Get(Set(ps, k, v), j) == Get(ps, j)
    ensures Without(Set(ps, k, v), k) == Without(ps, k)
    decreases |ps|
  {
    if |ps| > 0 {
      SetSpec(ps[1..], k, v);
      var r := Set(ps, k, v);
      if ps[0].0 == k {
        forall j | j != k ensures Get(r, j) == Get(ps, j) {
          GetWithout(ps[1..], k, j);
        }
        WithoutIdempotent(ps[1..], k);
      } else {
        assert Without(r, k) == [ps[0]] + Without(Set(ps[1..], k, v), k);
        assert Without(ps, k) == [ps[0]] + Without(ps[1..], k);
      }
    } else {
      assert Without([(k, v)], k) == [];
    }
  }

  lemma {:induction false} WithoutIdempotent(ps: Params, k: String)
    ensures Without(Without(ps, k), k) == Without(ps, k)
    decreases |ps|
  {
    if |ps| > 0 {
      WithoutIdempotent(ps[1..], k);
      var w := Without(ps[1..], k);
      if ps[0].0 != k {
        assert Without(ps, k) == [ps[0]] + w;
        assert ([ps[0]] + w)[1..] == w;
      } else {
        assert Without(ps, k) == w;
      }
    }
  }

  /** No name occurs twice. */
  predicate NamesDistinct(ps: Params) {
    forall i, j :: 0 <= i < j < |ps| ==> ps[i].0 != ps[j].0
  }

  /** `set` never introduces a second pair of the same name. */
  lemma {:induction false} SetKeepsNamesDistinct(ps: Params, k: String, v: String)
    requires NamesDistinct(ps)
    ensures NamesDistinct(Set(ps, k, v))
    decreases |ps|
  {
    if |ps| > 0 {
      var r := Set(ps, k, v);
      if ps[0].0 == k {
        WithoutKeepsNamesDistinct(ps[1..], k);
      } else {
        SetKeepsNamesDistinct(ps[1..], k, v);
        var rest := Set(ps[1..], k, v);
        SetNames(ps[1..], k, v);
        forall j | 0 < j < |r| ensures r[0].0 != r[j].0 {
          assert r[j] == rest[j - 1];
        }
      }
    }
  }

  lemma {:induction false} WithoutKeepsNamesDistinct(ps: Params, k: String)
    requires NamesDistinct(ps)
    ensures NamesDistinct(Without(ps, k))
    decreases |ps|
  {
    if |ps| > 0 {
      WithoutKeepsNamesDistinct(ps[1..], k);
      var w := Without(ps[1..], k);
      if ps[0].0 != k {
        var r := Without(ps, k);
        assert r == [ps[0]] + w;
        forall j | 0 < j < |r| ensures r[0].0 != r[j].0 {
          assert r[j] == w[j - 1] && w[j - 1] in ps[1..];
        }
      }
    }
  }

  /** Every name in the result of `set` is `k` or a name already there. */
  lemma {:induction false} SetNames(ps: Params, k: String, v: String)
    ensures forall i :: 0 <= i < |Set(ps, k, v)| ==>
      Set(ps, k, v)[i].0 == k || exists j :: 0 <= j < |ps| && ps[j].0 == Set(ps, k, v)[i].0
    decreases |ps|
  {
    if |ps| > 0 {
      SetNames(ps[1..], k, v);
      var r := Set(ps, k, v);
      if ps[0].0 == k {
        var w := Without(ps[1..], k);
        forall i | 1 <= i < |r| ensures exists j :: 0 <= j < |ps| && ps[j].0 == r[i].0 {
          assert r[i] == w[i - 1] && w[i - 1] in ps[1..];
          var j :| 0 <= j < |ps[1..]| && ps[1..][j] == w[i - 1];
          assert ps[j + 1].0 == r[i].0;
        }
      } else {
        var rest := Set(ps[1..], k, v);
        forall i | 1 <= i < |r| && r[i].0 != k ensures exists j :: 0 <= j < |ps| && ps[j].0 == r[i].0 {
          assert r[i] == rest[i - 1];
          var j :| 0 <= j < |ps[1..]| && ps[1..][j].0 == rest[i - 1].0;
          assert ps[j + 1].0 == r[i].0;
        }
      }
    }
  }

  /** `if (on) p.set(k, v)`. */
  function SetIf(ps: Params, on: bool, k: String, v: String): Params {
    if on then Set(ps, k, v) else ps
  }

  /** A conditional set names each parameter once if the list did, and
      changes only the value under its own name, and only when switched on. */
  lemma SetIfSpec(ps: Params, on: bool, k: String, v: String)
    requires NamesDistinct(ps)
    ensures NamesDistinct(SetIf(ps, on, k, v))
    ensures Get(SetIf(ps, on, k, v), k) == if on then Some(v) else Get(ps, k)
    ensures forall j :: j != k ==> Get(SetIf(ps, on, k, v), j) == Get(ps, j)
  {
    if on {
      SetSpec(ps, k, v);
      SetKeepsNamesDistinct(ps, k, v);
    }
  }

  /** `name=value`, each form-encoded. */
  function Pair(e: (String, String)): String {
    FormEncode(e.0) + "=" + FormEncode(e.1)
  }

  /** `params.toString()`: the pairs joined by `&`. */
  function Serialize(ps: Params): String
    decreases |ps|
  {
    if |ps| == 0 then ""
    else if |ps| == 1 then Pair(ps[0])
    else Pair(ps[0]) + "&" + Serialize(ps[1..])
  }

  /** The text before the first `c`, all of it when there is none. */
  function Before(t: String, c: char): (r: String)
    ensures |r| <= |t|
  {
    if |t| == 0 || t[0] == c then "" else [t[0]] + Before(t[1..], c)
  }

  /** The text after the first `c`, nothing when there is none. */
  function After(t: String, c: char): (r: String)
    ensures |t| > 0 ==> |r| < |t|
  {
    if |t| == 0 then "" else if t[0] == c then t[1..] else After(t[1..], c)
  }

  lemma {:induction false} SplitAtFirst(a: String, c: char, b: String)
    requires c !in a
    ensures Before(a + [c] + b, c) == a && After(a + [c] + b, c) == b
    ensures Before(a, c) == a && After(a, c) == ""
    decreases |a|
  {
    if |a| > 0 {
      SplitAtFirst(a[1..], c, b);
      assert (a + [c] + b)[1..] == a[1..] + [c] + b;
      assert [a[0]] + a[1..] == a;
    } else {
      assert a + [c] + b == [c] + b;
    }
  }

  /** The name/value pairs read back from a query string, as bytes: split
      at every `&`, each part at its first `=`, both sides form-decoded. */
  function Parse(t: String): seq<(seq<int>, seq<int>)>
    decreases |t|
  {
    if |t| == 0 then []
    else
      var p := Before(t, '&');
      [(FormDecode(Before(p, '=')), FormDecode(After(p, '=')))] + Parse(After(t, '&'))
  }

  /** The pairs of `ps` with each name and value as its UTF-8 bytes. */
  function PairBytes(ps: Params): seq<(seq<int>, seq<int>)> {
    seq(|ps|, i requires 0 <= i < |ps| => (Utf8Bytes(ps[i].0), Utf8Bytes(ps[i].1)))
  }

  lemma PairSplits(e: (String, String))
    ensures '&' !in Pair(e)
    ensures Before(Pair(e), '=') == FormEncode(e.0) && After(Pair(e), '=') == FormEncode(e.1)
  {
    FormEncodeWritten(e.0);
    FormEncodeWritten(e.1);
    SplitAtFirst(FormEncode(e.0), '=', FormEncode(e.1));
  }

  /** Reading the query string back gives every pair, in order, with its
      name and value intact: however a value is spelt, it cannot run into
      the next pair or the pair's name. */
  lemma {:induction false} SerializeRoundTrip(ps: Params)
    ensures Parse(Serialize(ps)) == PairBytes(ps)
    decreases |ps|
  {
    if |ps| > 0 {
      var e := ps[0];
      PairSplits(e);
      var t := Serialize(ps);
      if |ps| == 1 {
        SplitAtFirst(Pair(e), '&', "");
      } else {
        SplitAtFirst(Pair(e), '&', Serialize(ps[1..]));
        SerializeRoundTrip(ps[1..]);
      }
      FormRoundTrip(e.0);
      FormRoundTrip(e.1);
      assert |Pair(e)| > 0;
      assert Parse(t) == [(FormDecode(FormEncode(e.0)), FormDecode(FormEncode(e.1)))] + Parse(Serialize(ps[1..]));
      assert PairBytes(ps) == [PairBytes(ps)[0]] + PairBytes(ps[1..]);
    }
  }

  /** The serialised form is empty exactly when there are no pairs. */
  lemma SerializeEmpty(ps: Params)
    ensures Serialize(ps) == "" <==> |ps| == 0
  {
    if |ps| > 0 {
      assert Pair(ps[0])[|FormEncode(ps[0].0)|] == '=';
      if |ps| > 1 {
        assert |Serialize(ps)| >= |Pair(ps[0])|;
      }
    }
  }

  /** `?` followed by the parameters, or nothing when there are none. */
  function QuerySuffix(ps: Params): (r: String)
    ensures |ps| == 0 ==> r == ""
    ensures |ps| > 0 ==> r == "?" + Serialize(ps)
  {
    SerializeEmpty(ps);
    if Serialize(ps) != "" then "?" + Serialize(ps) else ""
  }
}
