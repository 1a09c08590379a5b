/**
 * Python `dict` with its insertion order, as an association list.
 * `Put` is `d[k] = v` (an existing key keeps its position, a new key goes
 * last) and `Update` is `d.update(other)`.
 */
module OrderedMap {
  import opened Wrappers

  type OMap<K, V> = seq<(K, V)>

  function Keys<K, V>(m: OMap<K, V>): (ks: seq<K>)
    ensures |ks| == |m| && forall j :: 0 <= j < |m| ==> ks[j] == m[j].0
  {
    seq(|m|, j requires 0 <= j < |m| => m[j].0)
  }

  /** The keys of a non-empty dict: its first key, then the keys of the rest. */
  lemma KeysFirst<K, V>(m: OMap<K, V>)
    requires |m| > 0
    ensures Keys(m) == [m[0].0] + Keys(m[1..])
  {
    var a, b := Keys(m), [m[0].0] + Keys(m[1..]);
    forall j | 0 <= j < |m| ensures a[j] == b[j] {
      if j > 0 {
        assert b[j] == Keys(m[1..])[j - 1] == m[1..][j - 1].0;
      }
    }
  }

  /** The values, in order. */
  function ValuesOf<K, V>(m: OMap<K, V>): (vs: seq<V>)
    ensures |vs| == |m| && forall j :: 0 <= j < |m| ==> vs[j] == m[j].1
  {
    seq(|m|, j requires 0 <= j < |m| => m[j].1)
  }

  predicate Distinct<K(==, !new)>(s: seq<K>)
  {
    forall a, b :: 0 <= a < b < |s| ==> s[a] != s[b]
  }

  /** `d.get(k)`: the value stored under `k`, if any. */
  function Get<K(==, !new), V>(m: OMap<K, V>, k: K): (r: Option<V>)
    ensures r.Some? <==> k in Keys(m)
    ensures r.Some? ==> exists j :: 0 <= j < |m| && m[j] == (k, r.value)
  {
    if |m| == 0 then None
    else if m[0].0 == k then Some(m[0].1)
    else
      var r := Get(m[1..], k);
      KeysFirst(m);
      assert r.Some? ==> exists j :: 0 <= j < |m[1..]| && m[1..][j] == (k, r.value);
      r
  }

  /** With distinct keys, the value `get` finds under a key is the one stored next to it. */
  lemma GetAt<K(!new), V>(m: OMap<K, V>, j: nat)
    requires Distinct(Keys(m)) && j < |m|
    ensures Get(m, m[j].0) == Some(m[j].1)
  {
    var r := Get(m, m[j].0);
    assert Keys(m)[j] == m[j].0;
    var i :| 0 <= i < |m| && m[i] == (m[j].0, r.value);
    assert Keys(m)[i] == Keys(m)[j];
  }

  /** `d[k] = v`. */
  function Put<K(==, !new), V>(m: OMap<K, V>, k: K, v: V): (r: OMap<K, V>)
    ensures Keys(r) == if k in Keys(m) then Keys(m) else Keys(m) + [k]
    ensures forall j :: Get(r, j) == if j == k then Some(v) else Get(m, j)
  {
    if |m| == 0 then [(k, v)]
    else if m[0].0 == k then [(k, v)] + m[1..]
    else
      var rest := Put(m[1..], k, v);
      assert m == [m[0]] + m[1..];
      PutBehind(m[0], m[1..], rest, k, v);
      [m[0]] + rest
  }

  /** The step of `Put` past a first entry with another key: that entry stays in front. */
  lemma PutBehind<K(!new), V>(e: (K, V), m: OMap<K, V>, rest: OMap<K, V>, k: K, v: V)
    requires e.0 != k
    requires Keys(rest) == if k in Keys(m) then Keys(m) else Keys(m) + [k]
    requires forall j :: Get(rest, j) == if j == k then Some(v) else Get(m, j)
    ensures Keys([e] + rest) == if k in Keys([e] + m) then Keys([e] + m) else Keys([e] + m) + [k]
    ensures forall j :: Get([e] + rest, j) == if j == k then Some(v) else Get([e] + m, j)
  {
    var er, em := [e] + rest, [e] + m;
    assert er[0] == e && er[1..] == rest && em[0] == e && em[1..] == m;
    KeysFirst(em);
    KeysFirst(er);
    forall j ensures Get(er, j) == if j == k then Some(v) else Get(em, j) {
      if j != e.0 {
        assert Get(er, j) == Get(rest, j) && Get(em, j) == Get(m, j);
      }
    }
  }

  /** `d[k] = v` with a key the dict does not hold appends one entry. */
  lemma {:induction false} PutNew<K(!new), V>(m: OMap<K, V>, k: K, v: V)
    requires k !in Keys(m)
    ensures Put(m, k, v) == m + [(k, v)]
  {
    if |m| > 0 {
      KeysFirst(m);
      PutNew(m[1..], k, v);
      assert m == [m[0]] + m[1..];
    }
  }

  /** `d.update(other)`: `Put` of each entry of `other`, in its order. */
  function Update<K(==, !new), V>(m: OMap<K, V>, other: OMap<K, V>): OMap<K, V>
    decreases |other|
  {
    if |other| == 0 then m else Update(Put(m, other[0].0, other[0].1), other[1..])
  }

  /** `update` with one more entry is one more `d[k] = v` after the rest. */
  lemma {:induction false} UpdateSnoc<K(!new), V>(m: OMap<K, V>, other: OMap<K, V>, k: K, v: V)
    ensures Update(m, other + [(k, v)]) == Put(Update(m, other), k, v)
    decreases |other|
  {
    if |other| > 0 {
      assert (other + [(k, v)])[1..] == other[1..] + [(k, v)];
      UpdateSnoc(Put(m, other[0].0, other[0].1), other[1..], k, v);
    }
  }

  /** Entries with distinct keys, put one by one into an empty dict, give exactly those entries in that order. */
  lemma {:induction false} UpdateEmpty<K(!new), V>(other: OMap<K, V>)
    requires Distinct(Keys(other))
    ensures Update([], other) == other
    decreases |other|
  {
    if |other| > 0 {
      var n := |other| - 1;
      var init := other[..n];
      assert other == init + [(other[n].0, other[n].1)];
      assert Distinct(Keys(init)) by {
        forall a, b | 0 <= a < b < |init| ensures Keys(init)[a] != Keys(init)[b] {
          assert Keys(other)[a] != Keys(other)[b];
        }
      }
      assert other[n].0 !in Keys(init) by {
        forall j | 0 <= j < |init| ensures Keys(init)[j] != other[n].0 {
          assert Keys(other)[j] != Keys(other)[n];
        }
      }
      UpdateEmpty(init);
      UpdateSnoc([], init, other[n].0, other[n].1);
      PutNew(init, other[n].0, other[n].1);
    }
  }

  /**
   * A dict built by putting `entries` one by one into an empty dict: its
   * keys in order of first appearance, and exactly `entries` when their
   * keys are distinct.
   */
  lemma UpdateFromEmpty<K(!new), V>(entries: OMap<K, V>)
    ensures Keys(Update([], entries)) == NewKeys(Keys(entries), [])
    ensures Distinct(Keys(entries)) ==> Update([], entries) == entries
  {
    UpdateKeys([], entries);
    if Distinct(Keys(entries)) {
      UpdateEmpty(entries);
    }
  }

  /** The keys of `s` not in `seen`, first occurrences only, in order. */
  function NewKeys<K(==, !new)>(s: seq<K>, seen: seq<K>): seq<K>
  {
    if |s| == 0 then []
    else if s[0] in seen then NewKeys(s[1..], seen)
    else [s[0]] + NewKeys(s[1..], seen + [s[0]])
  }

  /**
   * `update` keeps every existing key where it was and appends the keys
   * that are new, in the order the other dict first lists them.
   */
  lemma {:induction false} UpdateKeys<K(!new), V>(m: OMap<K, V>, other: OMap<K, V>)
    ensures Keys(Update(m, other)) == Keys(m) + NewKeys(Keys(other), Keys(m))
    decreases |other|
  {
    if |other| > 0 {
      var k := other[0].0;
      var m' := Put(m, k, other[0].1);
      UpdateKeys(m', other[1..]);
      KeysFirst(other);
    }
  }

  /**
   * After `update`, a key the other dict holds maps to its value there and
   * any other key keeps its old value.
   */
  lemma {:induction false} UpdateGet<K(!new), V>(m: OMap<K, V>, other: OMap<K, V>, k: K)
    requires Distinct(Keys(other))
    ensures Get(Update(m, other), k) == if k in Keys(other) then Get(other, k) else Get(m, k)
    decreases |other|
  {
    if |other| > 0 {
      var m' := Put(m, other[0].0, other[0].1);
      KeysFirst(other);
      assert Distinct(Keys(other[1..])) by {
        forall a, b | 0 <= a < b < |other[1..]| ensures other[1..][a].0 != other[1..][b].0 {
          assert other[a + 1].0 != other[b + 1].0;
        }
      }
      UpdateGet(m', other[1..], k);
      if k == other[0].0 {
        assert k !in Keys(other[1..]) by {
          forall j | 0 <= j < |other[1..]| ensures other[1..][j].0 != k {
            assert other[j + 1].0 != other[0].0;
          }
        }
      }
    }
  }

  lemma {:induction false} NewKeysDistinct<K(!new)>(s: seq<K>, seen: seq<K>)
    ensures Distinct(seen + NewKeys(s, seen)) <== Distinct(seen)
    ensures forall x :: x in NewKeys(s, seen) ==> x in s && x !in seen
  {
    if |s| > 0 {
      if s[0] in seen {
        NewKeysDistinct(s[1..], seen);
      } else {
        NewKeysDistinct(s[1..], seen + [s[0]]);
        assert seen + NewKeys(s, seen) == (seen + [s[0]]) + NewKeys(s[1..], seen + [s[0]]);
        if Distinct(seen) {
          assert Distinct(seen + [s[0]]);
        }
      }
    }
  }

  /** `update` never creates duplicate keys. */
  lemma UpdateDistinct<K(!new), V>(m: OMap<K, V>, other: OMap<K, V>)
    requires Distinct(Keys(m))
    ensures Distinct(Keys(Update(m, other)))
  {
    UpdateKeys(m, other);
    NewKeysDistinct(Keys(other), Keys(m));
  }
}
