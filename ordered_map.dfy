/**
 * A JavaScript Map, or an object used as a dictionary: a finite map that also remembers the
 * order in which its keys were first inserted, which is the order `for..of` and `for..in` visit.
 */
module OrderedMaps {

  datatype OrderedMap<K(!new), V> = OrderedMap(keys: seq<K>, entries: map<K, V>) {

    /** Each key is listed once, and exactly the keys of the map are listed. */
    ghost predicate Valid() {
      && (forall i, j :: 0 <= i < j < |keys| ==> keys[i] != keys[j])
      && (forall k :: k in entries <==> k in keys)
    }

    /** `m.set(k, v)`: an existing key keeps its place, a new key goes last. */
    function Set(k: K, v: V): (m: OrderedMap<K, V>)
      requires Valid()
      ensures m.Valid()
      ensures m.entries == entries[k := v]
      ensures k in entries ==> m.keys == keys
      ensures k !in entries ==> m.keys == keys + [k]
    {
      if k in entries then OrderedMap(keys, entries[k := v]) else OrderedMap(keys + [k], entries[k := v])
    }

    /** Setting a key twice leaves the second value, in the key's place. */
    lemma SetTwice(k: K, v: V, w: V)
      requires Valid()
      ensures Set(k, v).Set(k, w) == Set(k, w)
    {
      assert entries[k := v][k := w] == entries[k := w];
    }

    /** The values in key order, as iteration yields them. */
    function Values(): (vs: seq<V>)
      requires Valid()
      ensures |vs| == |keys|
      ensures forall i :: 0 <= i < |keys| ==> vs[i] == entries[keys[i]]
    {
      seq(|keys|, i requires 0 <= i < |keys| => entries[keys[i]])
    }
  }

  function Empty<K(!new), V>(): (m: OrderedMap<K, V>)
    ensures m.Valid() && m.keys == [] && m.entries == map[]
  {
    OrderedMap([], map[])
  }
}
