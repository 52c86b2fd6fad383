/**
 * A JavaScript `Map` as an insertion-ordered list of entries: `set` on a key
 * already present replaces its value where it stands, `set` on a new key
 * appends, and iteration (`values()`) follows the list.
 */
module OrderedMap {
  import opened Wrappers

  function KeySet<K, V>(m: seq<(K, V)>): set<K> {
    set i | 0 <= i < |m| :: m[i].0
  }

  lemma KeySetCons<K, V>(e: (K, V), m: seq<(K, V)>)
    ensures KeySet([e] + m) == {e.0} + KeySet(m)
  {
    var c := [e] + m;
    forall x | x in KeySet(c) ensures x in {e.0} + KeySet(m) {
      var i :| 0 <= i < |c| && c[i].0 == x;
      if i > 0 { assert m[i - 1].0 == x; }
    }
    forall x | x in KeySet(m) ensures x in KeySet(c) {
      var i :| 0 <= i < |m| && m[i].0 == x;
      assert c[i + 1].0 == x;
    }
    assert c[0].0 == e.0;
  }

  ghost predicate DistinctKeys<K, V>(m: seq<(K, V)>) {
    forall i, j :: 0 <= i < j < |m| ==> m[i].0 != m[j].0
  }

  /** Putting an entry in front: distinct keys exactly when its key is new to a distinct list. */
  lemma DistinctCons<K, V>(e: (K, V), m: seq<(K, V)>)
    ensures DistinctKeys([e] + m) <==> e.0 !in KeySet(m) && DistinctKeys(m)
  {
    var c := [e] + m;
    if DistinctKeys(c) {
      forall i, j | 0 <= i < j < |m| ensures m[i].0 != m[j].0 {
        assert c[i + 1] == m[i] && c[j + 1] == m[j];
      }
      forall i | 0 <= i < |m| ensures m[i].0 != e.0 {
        assert c[0] == e && c[i + 1] == m[i];
      }
    }
  }

  /** `map.get(k)`: the value of the entry with key `k`, if any. */
  function Get<K(==), V>(m: seq<(K, V)>, k: K): (r: Option<V>)
    ensures r.None? <==> k !in KeySet(m)
    ensures r.Some? ==> (k, r.value) in m
  {
    if m == [] then None
    else if m[0].0 == k then Some(m[0].1)
    else
      KeySetCons(m[0], m[1..]);
      assert m == [m[0]] + m[1..];
      Get(m[1..], k)
  }

  /** `map.values()`: the values in iteration order. */
  function Values<K, V>(m: seq<(K, V)>): (vs: seq<V>)
    ensures |vs| == |m|
    ensures forall i :: 0 <= i < |m| ==> vs[i] == m[i].1
  {
    seq(|m|, i requires 0 <= i < |m| => m[i].1)
  }

  /**
   * `map.set(k, v)`: a new key is appended at the end; an existing entry
   * is the only one that changes.
   */
  function Set<K(==), V>(m: seq<(K, V)>, k: K, v: V): (r: seq<(K, V)>)
    ensures k !in KeySet(m) ==> r == m + [(k, v)]
    ensures (k, v) in r
    ensures forall i :: 0 <= i < |r| ==> r[i] == (k, v) || r[i] in m
  {
    if m == [] then
      [(k, v)]
    else if m[0].0 == k then
      [(k, v)] + m[1..]
    else
      var rest := Set(m[1..], k, v);
      assert m == [m[0]] + m[1..];
      KeySetCons(m[0], m[1..]);
      [m[0]] + rest
  }

  /** `set` adds its key to the key set, and grows the map only when the key is new. */
  lemma {:induction false} SetKeys<K, V>(m: seq<(K, V)>, k: K, v: V)
    ensures KeySet(Set(m, k, v)) == KeySet(m) + {k}
    ensures |Set(m, k, v)| == if k in KeySet(m) then |m| else |m| + 1
  {
    if m == [] {
      assert [(k, v)][0].0 == k;
    } else {
      assert m == [m[0]] + m[1..];
      KeySetCons(m[0], m[1..]);
      if m[0].0 == k {
        KeySetCons((k, v), m[1..]);
      } else {
        SetKeys(m[1..], k, v);
        KeySetCons(m[0], Set(m[1..], k, v));
      }
    }
  }

  /**
   * On a key already present, `set` replaces the value where the entry
   * stands: same size, same order, only that entry changed.
   */
  lemma {:induction false} SetInPlace<K, V>(m: seq<(K, V)>, k: K, v: V)
    requires DistinctKeys(m) && k in KeySet(m)
    ensures |Set(m, k, v)| == |m|
    ensures forall i :: 0 <= i < |m| ==> Set(m, k, v)[i] == if m[i].0 == k then (k, v) else m[i]
  {
    assert m == [m[0]] + m[1..];
    KeySetCons(m[0], m[1..]);
    DistinctCons(m[0], m[1..]);
    if m[0].0 != k {
      SetInPlace(m[1..], k, v);
    }
  }

  /** `set` never creates a second entry for a key. */
  lemma {:induction false} SetKeepsDistinct<K, V>(m: seq<(K, V)>, k: K, v: V)
    requires DistinctKeys(m)
    ensures DistinctKeys(Set(m, k, v))
  {
    if m != [] {
      assert m == [m[0]] + m[1..];
      DistinctCons(m[0], m[1..]);
      if m[0].0 == k {
        DistinctCons((k, v), m[1..]);
      } else {
        SetKeepsDistinct(m[1..], k, v);
        SetKeys(m[1..], k, v);
        DistinctCons(m[0], Set(m[1..], k, v));
      }
    }
  }

  /** After `set(k, v)`, `get(k)` is `v` and every other key reads as before. */
  lemma {:induction false} GetAfterSet<K, V>(m: seq<(K, V)>, k: K, v: V, k': K)
    requires DistinctKeys(m)
    ensures Get(Set(m, k, v), k') == if k' == k then Some(v) else Get(m, k')
  {
    if m != [] && m[0].0 != k && m[0].0 != k' {
      GetAfterSet(m[1..], k, v, k');
    }
  }

  /** A second `set` of the same key overrides the first: only the last value remains. */
  lemma {:induction false} SetTwice<K, V>(m: seq<(K, V)>, k: K, v1: V, v2: V)
    ensures Set(Set(m, k, v1), k, v2) == Set(m, k, v2)
  {
    if m != [] && m[0].0 != k {
      SetTwice(m[1..], k, v1, v2);
      var r := Set(m, k, v1);
      assert r == [m[0]] + Set(m[1..], k, v1);
      assert r[1..] == Set(m[1..], k, v1);
    }
  }
}
