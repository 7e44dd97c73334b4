// What the collection and map converters share: runtime values that may be
// maps or collections, insertion-ordered maps (`LinkedHashMap`), and the
// element-by-element conversion loops that fill them.
module Containers {
  import opened JavaLang

  /**
   * A runtime value as the container converters see it: an element they
   * hand on without looking inside, a map with its entries in iteration
   * order, a list, or a set with its elements in iteration order.
   */
  datatype Value =
    | Atom(id: int)
    | MapOf(entries: seq<(Value, Value)>)
    | ListOf(elems: seq<Value>)
    | SetOf(elems: seq<Value>)

  /** `value instanceof Collection`. */
  predicate IsCollection(v: Value)
  {
    v.ListOf? || v.SetOf?
  }

  /** An element converter or parser: `read`/`parse` and `write`/`serialize`, each of which may throw. */
  datatype Codec = Codec(read: Value -> Result<Value>, write: Value -> Result<Value>)

  // ---------------------------------------------------------------------
  // Insertion-ordered maps

  function Keys(m: seq<(Value, Value)>): set<Value>
  {
    set i | 0 <= i < |m| :: m[i].0
  }

  predicate DistinctKeys(m: seq<(Value, Value)>)
  {
    forall i, j :: 0 <= i < j < |m| ==> m[i].0 != m[j].0
  }

  /** The position of a key in the map's iteration order, or -1 when the map does not hold it. */
  function KeyIndex(m: seq<(Value, Value)>, k: Value): (i: int)
    ensures -1 <= i < |m|
    ensures i == -1 <==> k !in Keys(m)
    ensures 0 <= i ==> m[i].0 == k && forall j :: 0 <= j < i ==> m[j].0 != k
  {
    if |m| == 0 then -1
    else if m[0].0 == k then 0
    else
      var rest := KeyIndex(m[1..], k);
      KeysCons(m);
      if rest == -1 then -1
      else
        assert forall j :: 1 <= j <= rest + 1 ==> m[j] == m[1..][j - 1];
        rest + 1
  }

  lemma KeysCons(m: seq<(Value, Value)>)
    requires |m| > 0
    ensures Keys(m) == {m[0].0} + Keys(m[1..])
  {
    forall x | x in Keys(m) ensures x in {m[0].0} + Keys(m[1..]) {
      var i :| 0 <= i < |m| && m[i].0 == x;
      if i > 0 { assert m[1..][i - 1].0 == x; }
    }
    forall x | x in Keys(m[1..]) ensures x in Keys(m) {
      var i :| 0 <= i < |m[1..]| && m[1..][i].0 == x;
      assert m[i + 1].0 == x;
    }
  }

  /** `map.get(k)`: the value stored under a key, if any. */
  function ValueAt(m: seq<(Value, Value)>, k: Value): (r: Option<Value>)
    ensures r.None? <==> k !in Keys(m)
    ensures r.Some? ==> (k, r.value) in m
  {
    var i := KeyIndex(m, k);
    if i < 0 then None else Some(m[i].1)
  }

  /**
   * `LinkedHashMap.put(k, v)`: a new key goes last; a key already present
   * keeps its place and takes the new value.
   */
  function Put(m: seq<(Value, Value)>, k: Value, v: Value): (r: seq<(Value, Value)>)
    ensures Keys(r) == Keys(m) + {k}
    ensures k !in Keys(m) ==> r == m + [(k, v)]
    ensures k in Keys(m) ==> |r| == |m| && (k, v) in r
    ensures DistinctKeys(m) ==> DistinctKeys(r)
  {
    var i := KeyIndex(m, k);
    if i < 0 then
      var r := m + [(k, v)];
      assert forall j :: 0 <= j < |m| ==> r[j] == m[j];
      assert Keys(r) == Keys(m) + {k} by {
        forall x | x in Keys(r) ensures x in Keys(m) + {k} {
          var j :| 0 <= j < |r| && r[j].0 == x;
        }
        assert r[|m|].0 == k;
      }
      r
    else
      var r := m[i := (k, v)];
      assert Keys(r) == Keys(m) + {k} by {
        forall x | x in Keys(m) ensures x in Keys(r) {
          var j :| 0 <= j < |m| && m[j].0 == x;
          assert r[j].0 == x;
        }
        forall x | x in Keys(r) ensures x in Keys(m) {
          var j :| 0 <= j < |r| && r[j].0 == x;
          assert m[j].0 == x;
        }
      }
      assert r[i] == (k, v);
      r
  }

  /**
   * After `put(k, v)` the map answers `v` for `k`, and every other key
   * keeps the value it had.
   */
  lemma PutThenGet(m: seq<(Value, Value)>, k: Value, v: Value, other: Value)
    requires DistinctKeys(m)
    ensures ValueAt(Put(m, k, v), k) == Some(v)
    ensures other != k ==> ValueAt(Put(m, k, v), other) == ValueAt(m, other)
  {
    var r := Put(m, k, v);
    var i := KeyIndex(m, k);
    if i < 0 {
      assert r[|m|] == (k, v);
      assert KeyIndex(r, k) == |m|;
      if other != k && other in Keys(m) {
        var j := KeyIndex(m, other);
        assert r[j] == m[j];
        assert KeyIndex(r, other) == j;
      }
    } else {
      assert KeyIndex(r, k) == i;
      if other != k && other in Keys(m) {
        var j := KeyIndex(m, other);
        assert r[j] == m[j];
        assert KeyIndex(r, other) == j;
      }
    }
  }

  // ---------------------------------------------------------------------
  // Filling a map entry by entry

  /** Every key and every value of the entries converts without throwing. */
  predicate AllEntriesConvert(entries: seq<(Value, Value)>, kc: Value -> Result<Value>, vc: Value -> Result<Value>)
  {
    forall i :: 0 <= i < |entries| ==> kc(entries[i].0).Ok? && vc(entries[i].1).Ok?
  }

  /**
   * The map-filling loop `ret.put(kc(key), vc(value))` over the entries in
   * iteration order, starting from `acc`: the key is converted before the
   * value, and the first conversion that throws ends the loop with its
   * exception.
   */
  function ConvertInto(acc: seq<(Value, Value)>, entries: seq<(Value, Value)>,
                       kc: Value -> Result<Value>, vc: Value -> Result<Value>): (r: Result<seq<(Value, Value)>>)
    ensures r.Ok? <==> AllEntriesConvert(entries, kc, vc)
    ensures r.Ok? && DistinctKeys(acc) ==> DistinctKeys(r.value)
    decreases |entries|
  {
    if |entries| == 0 then Ok(acc)
    else
      assert forall i :: 1 <= i < |entries| ==> entries[i] == entries[1..][i - 1];
      match kc(entries[0].0)
      case Err(e) => Err(e)
      case Ok(k) =>
        match vc(entries[0].1)
        case Err(e) => Err(e)
        case Ok(v) => ConvertInto(Put(acc, k, v), entries[1..], kc, vc)
  }

  /** The loop itself, over a fresh LinkedHashMap. */
  method FillMap(entries: seq<(Value, Value)>, kc: Value -> Result<Value>, vc: Value -> Result<Value>)
    returns (r: Result<seq<(Value, Value)>>)
    ensures r == ConvertInto([], entries, kc, vc)
  {
    var ret: seq<(Value, Value)> := [];
    var i := 0;
    while i < |entries|
      invariant 0 <= i <= |entries|
      invariant ConvertInto(ret, entries[i..], kc, vc) == ConvertInto([], entries, kc, vc)
    {
      assert entries[i..][1..] == entries[i + 1..];
      var k := kc(entries[i].0);
      if k.Err? {
        return Err(k.error);
      }
      var v := vc(entries[i].1);
      if v.Err? {
        return Err(v.error);
      }
      ret := Put(ret, k.value, v.value);
      i := i + 1;
    }
    assert entries[i..] == [];
    return Ok(ret);
  }

  /** Every entry before position `i` converts, key and value. */
  predicate ConvertsBefore(entries: seq<(Value, Value)>, i: nat, kc: Value -> Result<Value>, vc: Value -> Result<Value>)
    requires i <= |entries|
  {
    forall j :: 0 <= j < i ==> kc(entries[j].0).Ok? && vc(entries[j].1).Ok?
  }

  /** At position `i` the key throws `e`, or the key converts and the value throws `e`. */
  predicate ThrowsAt(entries: seq<(Value, Value)>, i: nat, kc: Value -> Result<Value>, vc: Value -> Result<Value>, e: Exception)
    requires i < |entries|
  {
    (kc(entries[i].0).Err? && kc(entries[i].0).error == e) ||
    (kc(entries[i].0).Ok? && vc(entries[i].1).Err? && vc(entries[i].1).error == e)
  }

  /**
   * A failed fill reports the exception of the first conversion that threw:
   * every earlier entry converted, and at that entry either its key threw,
   * or its key converted and its value threw.
   */
  lemma {:induction false} ConvertIntoErrorIsFirstFailure(acc: seq<(Value, Value)>, entries: seq<(Value, Value)>,
                                                         kc: Value -> Result<Value>, vc: Value -> Result<Value>)
    requires ConvertInto(acc, entries, kc, vc).Err?
    ensures exists i ::
      0 <= i < |entries| && ConvertsBefore(entries, i, kc, vc) &&
      ThrowsAt(entries, i, kc, vc, ConvertInto(acc, entries, kc, vc).error)
    decreases |entries|
  {
    var e := ConvertInto(acc, entries, kc, vc).error;
    if kc(entries[0].0).Err? || vc(entries[0].1).Err? {
      assert ConvertsBefore(entries, 0, kc, vc) && ThrowsAt(entries, 0, kc, vc, e);
    } else {
      var k, v := kc(entries[0].0).value, vc(entries[0].1).value;
      var tail := entries[1..];
      assert ConvertInto(acc, entries, kc, vc) == ConvertInto(Put(acc, k, v), tail, kc, vc);
      ConvertIntoErrorIsFirstFailure(Put(acc, k, v), tail, kc, vc);
      var i :| 0 <= i < |tail| && ConvertsBefore(tail, i, kc, vc) && ThrowsAt(tail, i, kc, vc, e);
      assert entries[i + 1] == tail[i];
      assert ThrowsAt(entries, i + 1, kc, vc, e);
      forall j | 0 <= j < i + 1 ensures kc(entries[j].0).Ok? && vc(entries[j].1).Ok? {
        if j > 0 { assert entries[j] == tail[j - 1]; }
      }
      assert ConvertsBefore(entries, i + 1, kc, vc);
    }
  }

  /** The entries with their keys and values converted, in the same order. */
  function ConvertedEntries(entries: seq<(Value, Value)>, kc: Value -> Result<Value>, vc: Value -> Result<Value>):
    (r: seq<(Value, Value)>)
    requires AllEntriesConvert(entries, kc, vc)
    ensures |r| == |entries|
    ensures forall i :: 0 <= i < |entries| ==> r[i] == (kc(entries[i].0).value, vc(entries[i].1).value)
  {
    seq(|entries|, i requires 0 <= i < |entries| && AllEntriesConvert(entries, kc, vc) =>
      (kc(entries[i].0).value, vc(entries[i].1).value))
  }

  /**
   * When the converted keys are pairwise distinct and new to `acc`, the
   * filled map is `acc` followed by the converted entries in source order.
   */
  lemma {:induction false} ConvertIntoKeepsOrder(acc: seq<(Value, Value)>, entries: seq<(Value, Value)>,
                                                 kc: Value -> Result<Value>, vc: Value -> Result<Value>)
    requires AllEntriesConvert(entries, kc, vc)
    requires DistinctKeys(acc + ConvertedEntries(entries, kc, vc))
    ensures ConvertInto(acc, entries, kc, vc) == Ok(acc + ConvertedEntries(entries, kc, vc))
    decreases |entries|
  {
    var c := ConvertedEntries(entries, kc, vc);
    if |entries| == 0 {
      assert acc + c == acc;
    } else {
      var k, v := kc(entries[0].0).value, vc(entries[0].1).value;
      var tail := entries[1..];
      ConvertedEntriesCons(entries, kc, vc);
      var rest := ConvertedEntries(tail, kc, vc);
      FirstKeyIsFresh(acc, c);
      assert ConvertInto(acc, entries, kc, vc) == ConvertInto(acc + [(k, v)], tail, kc, vc);
      ConvertIntoKeepsOrder(acc + [(k, v)], tail, kc, vc);
    }
  }

  lemma ConvertedEntriesCons(entries: seq<(Value, Value)>, kc: Value -> Result<Value>, vc: Value -> Result<Value>)
    requires |entries| > 0 && AllEntriesConvert(entries, kc, vc)
    ensures AllEntriesConvert(entries[1..], kc, vc)
    ensures ConvertedEntries(entries, kc, vc) ==
      [(kc(entries[0].0).value, vc(entries[0].1).value)] + ConvertedEntries(entries[1..], kc, vc)
  {
    var tail := entries[1..];
    forall j | 0 <= j < |tail| ensures kc(tail[j].0).Ok? && vc(tail[j].1).Ok? {
      assert tail[j] == entries[j + 1];
    }
  }

  lemma FirstKeyIsFresh(acc: seq<(Value, Value)>, c: seq<(Value, Value)>)
    requires |c| > 0 && DistinctKeys(acc + c)
    ensures c[0].0 !in Keys(acc)
    ensures Put(acc, c[0].0, c[0].1) == acc + [c[0]]
    ensures (acc + [c[0]]) + c[1..] == acc + c
  {
    forall i | 0 <= i < |acc| ensures acc[i].0 != c[0].0 {
      assert (acc + c)[i] == acc[i] && (acc + c)[|acc|] == c[0];
    }
    assert (acc + [c[0]]) + c[1..] == acc + c;
  }



  /** Every key and value of `m` survives writing with `kw`/`vw` and reading back with `kr`/`vr`. */
  predicate EntriesRoundTrip(m: seq<(Value, Value)>, kw: Value -> Result<Value>, vw: Value -> Result<Value>,
                             kr: Value -> Result<Value>, vr: Value -> Result<Value>)
  {
    forall i :: 0 <= i < |m| ==>
      kw(m[i].0).Ok? && kr(kw(m[i].0).value) == Ok(m[i].0) &&
      vw(m[i].1).Ok? && vr(vw(m[i].1).value) == Ok(m[i].1)
  }

  /**
   * Filling a map with the written entries and then filling another with
   * those read back gives the original map back, whenever each element
   * codec reads back what it wrote.
   */
  lemma FillRoundTrip(m: seq<(Value, Value)>, kw: Value -> Result<Value>, vw: Value -> Result<Value>,
                      kr: Value -> Result<Value>, vr: Value -> Result<Value>)
    requires DistinctKeys(m) && EntriesRoundTrip(m, kw, vw, kr, vr)
    ensures ConvertInto([], m, kw, vw).Ok?
    ensures ConvertInto([], ConvertInto([], m, kw, vw).value, kr, vr) == Ok(m)
  {
    assert AllEntriesConvert(m, kw, vw);
    var w := ConvertedEntries(m, kw, vw);
    forall i, j | 0 <= i < j < |w| ensures w[i].0 != w[j].0 {
      assert kr(w[i].0) == Ok(m[i].0) && kr(w[j].0) == Ok(m[j].0);
    }
    assert [] + w == w;
    ConvertIntoKeepsOrder([], m, kw, vw);
    assert AllEntriesConvert(w, kr, vr);
    var back := ConvertedEntries(w, kr, vr);
    assert back == m;
    assert [] + m == m;
    ConvertIntoKeepsOrder([], w, kr, vr);
  }

  // ---------------------------------------------------------------------
  // Filling a collection element by element

  /** Which collection a converter's `createNew` makes: an ArrayList or a HashSet. */
  datatype ContainerKind = ListKind | SetKind

  predicate Distinct(s: seq<Value>)
  {
    forall i, j :: 0 <= i < j < |s| ==> s[i] != s[j]
  }

  /** `Collection.add(x)`: a list always appends; a set ignores an element it already holds. */
  function Add(kind: ContainerKind, acc: seq<Value>, x: Value): (r: seq<Value>)
    ensures (set y | y in r) == (set y | y in acc) + {x}
    ensures kind.ListKind? ==> r == acc + [x]
    ensures kind.SetKind? && Distinct(acc) ==> Distinct(r)
    ensures kind.SetKind? && x in acc ==> r == acc
  {
    if kind.SetKind? && x in acc then acc else acc + [x]
  }

  /** Every element converts without throwing. */
  predicate AllConvert(elems: seq<Value>, f: Value -> Result<Value>)
  {
    forall i :: 0 <= i < |elems| ==> f(elems[i]).Ok?
  }

  /** The adding loop: each element converted in iteration order and added; the first exception ends it. */
  function ConvertAll(kind: ContainerKind, acc: seq<Value>, elems: seq<Value>, f: Value -> Result<Value>):
    (r: Result<seq<Value>>)
    ensures r.Ok? <==> AllConvert(elems, f)
    ensures r.Ok? ==>
      (set y | y in r.value) == (set y | y in acc) + (set i | 0 <= i < |elems| && f(elems[i]).Ok? :: f(elems[i]).value)
    ensures r.Ok? && kind.SetKind? && Distinct(acc) ==> Distinct(r.value)
    decreases |elems|
  {
    if |elems| == 0 then Ok(acc)
    else
      assert forall i :: 1 <= i < |elems| ==> elems[i] == elems[1..][i - 1];
      match f(elems[0])
      case Err(e) => Err(e)
      case Ok(x) =>
        var r := ConvertAll(kind, Add(kind, acc, x), elems[1..], f);
        assert r.Ok? ==>
          (set i | 0 <= i < |elems| && f(elems[i]).Ok? :: f(elems[i]).value) ==
          {x} + (set i | 0 <= i < |elems[1..]| && f(elems[1..][i]).Ok? :: f(elems[1..][i]).value) by {
          if r.Ok? {
            var a := set i | 0 <= i < |elems| && f(elems[i]).Ok? :: f(elems[i]).value;
            var b := set i | 0 <= i < |elems[1..]| && f(elems[1..][i]).Ok? :: f(elems[1..][i]).value;
            forall y | y in a ensures y in {x} + b {
              var i :| 0 <= i < |elems| && f(elems[i]).Ok? && f(elems[i]).value == y;
              if i > 0 { assert f(elems[1..][i - 1]).value == y; }
            }
            forall y | y in b ensures y in a {
              var i :| 0 <= i < |elems[1..]| && f(elems[1..][i]).Ok? && f(elems[1..][i]).value == y;
              assert f(elems[i + 1]).value == y;
            }
            assert f(elems[0]).value == x;
          }
        }
        r
  }

  /** Converting a single element into a fresh collection holds just its conversion. */
  lemma ConvertAllSingleton(kind: ContainerKind, x: Value, f: Value -> Result<Value>)
    ensures f(x).Ok? ==> ConvertAll(kind, [], [x], f) == Ok([f(x).value])
    ensures f(x).Err? ==> ConvertAll(kind, [], [x], f) == Err(f(x).error)
  {
    assert [x][1..] == [];
    if f(x).Ok? {
      assert Add(kind, [], f(x).value) == [f(x).value];
    }
  }

  /** The loop itself, over a fresh collection. */
  method AddAll(kind: ContainerKind, elems: seq<Value>, f: Value -> Result<Value>) returns (r: Result<seq<Value>>)
    ensures r == ConvertAll(kind, [], elems, f)
  {
    var ret: seq<Value> := [];
    var i := 0;
    while i < |elems|
      invariant 0 <= i <= |elems|
      invariant ConvertAll(kind, ret, elems[i..], f) == ConvertAll(kind, [], elems, f)
    {
      assert elems[i..][1..] == elems[i + 1..];
      var x := f(elems[i]);
      if x.Err? {
        return Err(x.error);
      }
      ret := Add(kind, ret, x.value);
      i := i + 1;
    }
    assert elems[i..] == [];
    return Ok(ret);
  }

  /** A list filled from elements that all convert holds their conversions in order. */
  lemma {:induction false} ConvertAllListKeepsOrder(acc: seq<Value>, elems: seq<Value>, f: Value -> Result<Value>)
    requires AllConvert(elems, f)
    ensures ConvertAll(ListKind, acc, elems, f).Ok?
    ensures var r := ConvertAll(ListKind, acc, elems, f).value;
      |r| == |acc| + |elems| && r[..|acc|] == acc &&
      forall i :: 0 <= i < |elems| ==> r[|acc| + i] == f(elems[i]).value
    decreases |elems|
  {
    if |elems| > 0 {
      assert forall i :: 1 <= i < |elems| ==> elems[i] == elems[1..][i - 1];
      var acc' := acc + [f(elems[0]).value];
      ConvertAllListKeepsOrder(acc', elems[1..], f);
      var r := ConvertAll(ListKind, acc, elems, f).value;
      assert r == ConvertAll(ListKind, acc', elems[1..], f).value;
      assert r[..|acc|] == r[..|acc'|][..|acc|];
      forall i | 0 <= i < |elems| ensures r[|acc| + i] == f(elems[i]).value {
        if i > 0 {
          assert r[|acc'| + (i - 1)] == f(elems[1..][i - 1]).value;
        } else {
          assert r[..|acc'|] == acc';
          assert r[|acc|] == r[..|acc'|][|acc|];
        }
      }
    }
  }

  /** The value a converter returns: the filled collection, a list or a set. */
  function Collect(kind: ContainerKind, elems: seq<Value>): (v: Value)
    ensures IsCollection(v) && v.elems == elems
    ensures v.SetOf? <==> kind.SetKind?
  {
    match kind
    case ListKind => ListOf(elems)
    case SetKind => SetOf(elems)
  }
}
