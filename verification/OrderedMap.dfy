/** A JavaScript `Map`: a finite map that remembers insertion order. */
module OrderedMaps {
  import opened Prelude

  datatype OrderedMap<K(==, !new), V> = OrderedMap(keys: seq<K>, values: map<K, V>) {

    ghost predicate Valid() {
      && (forall k :: k in keys <==> k in values)
      && (forall i, j :: 0 <= i < j < |keys| ==> keys[i] != keys[j])
    }

    /** `map.set`: an existing key keeps its place, a new key goes to the end. */
    function Set(k: K, v: V): (r: OrderedMap<K, V>)
      requires Valid()
      ensures r.Valid()
      ensures r.values == values[k := v]
      ensures keys <= r.keys
    {
      OrderedMap(if k in values then keys else keys + [k], values[k := v])
    }

    /** `map.delete`. */
    function Delete(k: K): (r: OrderedMap<K, V>)
      requires Valid()
      ensures r.Valid()
      ensures r.values == values - {k}
    {
      Without(keys, k);
      OrderedMap(Remove(keys, k), values - {k})
    }
  }

  function Empty<K(==, !new), V>(): OrderedMap<K, V> { OrderedMap([], map[]) }

  function Remove<K(==)>(keys: seq<K>, k: K): seq<K> {
    if keys == [] then []
    else if keys[|keys| - 1] == k then Remove(keys[..|keys| - 1], k)
    else Remove(keys[..|keys| - 1], k) + [keys[|keys| - 1]]
  }

  lemma {:induction false} Without<K(!new)>(keys: seq<K>, k: K)
    ensures forall x :: x in Remove(keys, k) <==> x in keys && x != k
    ensures Distinct(keys) ==> Distinct(Remove(keys, k))
    ensures k !in keys ==> Remove(keys, k) == keys
  {
    if keys != [] {
      var front, last := keys[..|keys| - 1], keys[|keys| - 1];
      Without(front, k);
      assert keys == front + [last];
      if Distinct(keys) {
        assert Distinct(front);
        assert last !in front;
        assert last !in Remove(front, k);
      }
    }
  }

  /** Adding a new key and deleting it again leaves the order of all others alone. */
  lemma DeleteUndoesSet<K(!new), V>(m: OrderedMap<K, V>, k: K, v: V)
    requires m.Valid() && k !in m.values
    ensures m.Set(k, v).Delete(k) == m
  {
    Without(m.keys, k);
    var s := m.keys + [k];
    assert s[..|s| - 1] == m.keys;
    assert m.values[k := v] - {k} == m.values;
  }
}
