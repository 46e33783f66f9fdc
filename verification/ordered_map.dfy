/**
 * A JavaScript object used as a string-keyed record (`Record<string, Buffer>`), kept as its own
 * entries in `Object.keys` order. Assigning to a new key appends it; assigning to an existing
 * key replaces the value in place and keeps the key's position.
 */
module OrderedMap {
  import opened Wrappers
  import opened OrderedSet

  function Keys<K(==,!new), V(==,!new)>(m: seq<(K, V)>): (ks: seq<K>)
    ensures |ks| == |m| && forall i :: 0 <= i < |m| ==> ks[i] == m[i].0
  {
    if m == [] then [] else [m[0].0] + Keys(m[1..])
  }

  function KeySet<K(==,!new), V(==,!new)>(m: seq<(K, V)>): set<K> {
    set e | e in m :: e.0
  }

  predicate UniqueKeys<K(==,!new), V(==,!new)>(m: seq<(K, V)>) {
    forall i, j :: 0 <= i < j < |m| ==> m[i].0 != m[j].0
  }

  lemma KeySetCons<K(!new), V(!new)>(m: seq<(K, V)>)
    requires m != []
    ensures KeySet(m) == {m[0].0} + KeySet(m[1..])
  {
    assert m == [m[0]] + m[1..];
  }

  /** `obj[k]` for an own key: the value stored under `k`, if any. */
  function Get<K(==,!new), V(==,!new)>(m: seq<(K, V)>, k: K): (r: Option<V>)
    ensures r.Some? <==> k in KeySet(m)
    ensures r.Some? ==> (k, r.value) in m
  {
    if m == [] then None
    else if m[0].0 == k then Some(m[0].1)
    else
      KeySetCons(m);
      Get(m[1..], k)
  }

  /** `obj[k] = v`. */
  function Put<K(==,!new), V(==,!new)>(m: seq<(K, V)>, k: K, v: V): (r: seq<(K, V)>)
    ensures Get(r, k) == Some(v)
    ensures KeySet(r) == KeySet(m) + {k}
    ensures forall e :: e in r ==> e == (k, v) || e in m
  {
    if m == [] then [(k, v)]
    else
      KeySetCons(m);
      if m[0].0 == k then
        var r := [(k, v)] + m[1..];
        assert r[1..] == m[1..];
        KeySetCons(r);
        r
      else
        var t := Put(m[1..], k, v);
        var r := [m[0]] + t;
        assert r[1..] == t;
        KeySetCons(r);
        assert m == [m[0]] + m[1..];
        r
  }

  /** Assignment to a new key appends the entry at the end of the key order. */
  lemma {:induction false} PutAppends<K(!new), V(!new)>(m: seq<(K, V)>, k: K, v: V)
    ensures k !in KeySet(m) ==> Put(m, k, v) == m + [(k, v)]
  {
    if m != [] && k !in KeySet(m) {
      KeySetCons(m);
      PutAppends(m[1..], k, v);
      assert m == [m[0]] + m[1..];
    }
  }

  /** Assignment leaves every other key's value as it was. */
  lemma {:induction false} PutKeepsOthers<K(!new), V(!new)>(m: seq<(K, V)>, k: K, v: V, k': K)
    requires k' != k
    ensures Get(Put(m, k, v), k') == Get(m, k')
  {
    if m != [] && m[0].0 != k {
      PutKeepsOthers(m[1..], k, v, k');
      assert Put(m, k, v)[1..] == Put(m[1..], k, v);
    }
  }

  /** Assignment to an existing key keeps every key in its position. */
  lemma {:induction false} PutKeepsKeys<K(!new), V(!new)>(m: seq<(K, V)>, k: K, v: V)
    requires k in KeySet(m)
    ensures Keys(Put(m, k, v)) == Keys(m)
  {
    KeySetCons(m);
    if m[0].0 != k {
      PutKeepsKeys(m[1..], k, v);
      assert Put(m, k, v)[1..] == Put(m[1..], k, v);
    } else {
      assert Put(m, k, v)[1..] == m[1..];
    }
  }

  /** Assignment never creates a second entry for a key. */
  lemma PutKeepsUniqueKeys<K(!new), V(!new)>(m: seq<(K, V)>, k: K, v: V)
    requires UniqueKeys(m)
    ensures UniqueKeys(Put(m, k, v))
  {
    var r := Put(m, k, v);
    PutAppends(m, k, v);
    if k in KeySet(m) {
      PutKeepsKeys(m, k, v);
      forall i | 0 <= i < |r| ensures r[i].0 == m[i].0 {
        assert Keys(r)[i] == Keys(m)[i];
      }
    }
  }
}
