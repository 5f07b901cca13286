/**
 * A JavaScript `Map<number, V>`: a dictionary that remembers the order in which
 * its keys were first inserted. `set` on a key already present keeps that key's
 * place, `delete` removes it, and `values()` yields the values in insertion order.
 */
module OrderedMaps {
  import opened Wrappers

  datatype OrderedMap<V> = OrderedMap(order: seq<int>, entries: map<int, V>)

  /** No key occurs twice in `s`. */
  predicate Distinct(s: seq<int>) {
    forall i, j :: 0 <= i < j < |s| ==> s[i] != s[j]
  }

  /** The keys of `s` strictly increase. */
  predicate Ascending(s: seq<int>) {
    forall i, j :: 0 <= i < j < |s| ==> s[i] < s[j]
  }

  /** The iteration order lists each key of the dictionary exactly once. */
  predicate Wf<V>(m: OrderedMap<V>) {
    && Distinct(m.order)
    && (forall i :: 0 <= i < |m.order| ==> m.order[i] in m.entries)
    && (forall k :: k in m.entries ==> k in m.order)
  }

  function Empty<V>(): (m: OrderedMap<V>)
    ensures Wf(m) && m.entries == map[] && |m.order| == 0
  {
    OrderedMap([], map[])
  }

  /** `Map.prototype.get`: the value under `k`, or nothing. */
  function Get<V>(m: OrderedMap<V>, k: int): (r: Option<V>)
    ensures r.Some? <==> k in m.entries
    ensures r.Some? ==> r.value == m.entries[k]
  {
    if k in m.entries then Some(m.entries[k]) else None
  }

  /** `Map.prototype.set`: a new key goes to the end of the order, an existing one keeps its place. */
  function Set<V>(m: OrderedMap<V>, k: int, v: V): (r: OrderedMap<V>)
    ensures r.entries == m.entries[k := v]
    ensures k in m.entries ==> r.order == m.order
    ensures k !in m.entries ==> r.order == m.order + [k]
    ensures Wf(m) ==> Wf(r)
  {
    OrderedMap(if k in m.entries then m.order else m.order + [k], m.entries[k := v])
  }

  /** `s` with every occurrence of `k` removed, the rest in the same order. */
  function Without(s: seq<int>, k: int): (r: seq<int>)
    ensures forall x :: x in r <==> x in s && x != k
    ensures |r| <= |s|
  {
    if s == [] then []
    else if s[0] == k then Without(s[1..], k)
    else [s[0]] + Without(s[1..], k)
  }

  /** Removing a key keeps the remaining keys distinct. */
  lemma {:induction false} WithoutDistinct(s: seq<int>, k: int)
    requires Distinct(s)
    ensures Distinct(Without(s, k))
  {
    if s != [] {
      WithoutDistinct(s[1..], k);
      if s[0] != k {
        var rest := Without(s[1..], k);
        assert s[0] !in s[1..];
        assert s[0] !in rest;
        var r := [s[0]] + rest;
        forall i, j | 0 <= i < j < |r| ensures r[i] != r[j] {
          assert r[j] == rest[j - 1] && rest[j - 1] in rest;
          if i > 0 { assert r[i] == rest[i - 1]; }
        }
      }
    }
  }

  /** Removing a key keeps the remaining keys ascending. */
  lemma {:induction false} WithoutAscending(s: seq<int>, k: int)
    requires Ascending(s)
    ensures Ascending(Without(s, k))
  {
    if s != [] {
      WithoutAscending(s[1..], k);
      if s[0] != k {
        var rest := Without(s[1..], k);
        forall x | x in rest ensures s[0] < x {
          var j :| 0 <= j < |s[1..]| && s[1..][j] == x;
          assert s[j + 1] == x;
        }
        var r := [s[0]] + rest;
        forall i, j | 0 <= i < j < |r| ensures r[i] < r[j] {
          assert r[j] == rest[j - 1] && rest[j - 1] in rest;
          if i > 0 { assert r[i] == rest[i - 1]; }
        }
      }
    }
  }

  /** `Map.prototype.delete`: removes `k` and reports whether it was there. */
  function Delete<V>(m: OrderedMap<V>, k: int): (r: (OrderedMap<V>, bool))
    ensures r.1 <==> k in m.entries
    ensures r.0.entries == m.entries - {k}
    ensures r.0.order == Without(m.order, k)
    ensures Wf(m) ==> Wf(r.0)
    ensures Ascending(m.order) ==> Ascending(r.0.order)
  {
    var w := Without(m.order, k);
    assert Distinct(m.order) ==> Distinct(w) by {
      if Distinct(m.order) { WithoutDistinct(m.order, k); }
    }
    assert Ascending(m.order) ==> Ascending(w) by {
      if Ascending(m.order) { WithoutAscending(m.order, k); }
    }
    assert Wf(m) ==> forall i :: 0 <= i < |w| ==> w[i] in m.entries - {k} by {
      if Wf(m) {
        forall i | 0 <= i < |w| ensures w[i] in m.entries - {k} {
          assert w[i] in w;
          OrderedKeysPresent(m, w[i]);
        }
      }
    }
    (OrderedMap(w, m.entries - {k}), k in m.entries)
  }

  /** `Array.from(m.values())`: the values in insertion order. */
  function Values<V>(m: OrderedMap<V>): (r: seq<V>)
    requires Wf(m)
    ensures |r| == |m.order|
    ensures forall i :: 0 <= i < |r| ==> r[i] == m.entries[m.order[i]]
  {
    seq(|m.order|, i requires 0 <= i < |m.order| => m.entries[m.order[i]])
  }

  /** A well-formed map's order is as long as its dictionary is large. */
  lemma {:induction false} OrderCoversEntries<V>(m: OrderedMap<V>)
    requires Wf(m)
    ensures |m.order| == |m.entries|
  {
    DistinctCardinality(m.order);
    var listed := set k | k in m.order;
    forall k | k in listed ensures k in m.entries { OrderedKeysPresent(m, k); }
    forall k | k in m.entries ensures k in listed { assert k in m.order; }
    assert listed == m.entries.Keys;
  }

  /** Every key the order lists is in the dictionary. */
  lemma OrderedKeysPresent<V>(m: OrderedMap<V>, k: int)
    requires Wf(m) && k in m.order
    ensures k in m.entries
  {
    var i :| 0 <= i < |m.order| && m.order[i] == k;
  }

  lemma {:induction false} DistinctCardinality(s: seq<int>)
    requires Distinct(s)
    ensures |set k | k in s| == |s|
  {
    if s != [] {
      DistinctCardinality(s[1..]);
      assert (set k | k in s) == (set k | k in s[1..]) + {s[0]};
      assert s[0] !in s[1..];
    }
  }
}
