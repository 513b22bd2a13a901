/** Kotlin's default `Map` (a `LinkedHashMap`) and Python's `dict`: a finite map that
    remembers the order in which its keys were first put. */
module LinkedMaps {
  import opened Wrappers
  import opened Seqs

  /** `keys` in insertion order, `items` the key/value association. */
  datatype Entries<K, V> = Entries(keys: seq<K>, items: map<K, V>)

  /** Each key listed once, and exactly the keys of the association listed. */
  type LinkedMap<K(==), V> = m: Entries<K, V> | Distinct(m.keys) && m.items.Keys == set k | k in m.keys
    witness Entries([], map[])

  function Empty<K(==), V>(): (m: LinkedMap<K, V>)
    ensures m.keys == [] && m.items == map[]
  {
    Entries([], map[])
  }

  /** `map[key]`: the value put last under `key`, if any. */
  function Get<K(==), V>(m: LinkedMap<K, V>, key: K): (r: Option<V>)
    ensures r.Some? <==> key in m.keys
    ensures r.Some? ==> r.value == m.items[key]
  {
    if key in m.items then Some(m.items[key]) else None
  }

  /** `map[key] = value`: a new key goes to the end of the order, an existing one keeps its place. */
  function Put<K(==), V>(m: LinkedMap<K, V>, key: K, value: V): (r: LinkedMap<K, V>)
    ensures r.items == m.items[key := value]
    ensures r.keys == if key in m.keys then m.keys else m.keys + [key]
  {
    if key in m.items then Entries(m.keys, m.items[key := value])
    else
      assert Distinct(m.keys + [key]) by {
        forall i, j | 0 <= i < j < |m.keys| + 1 ensures (m.keys + [key])[i] != (m.keys + [key])[j] {
          if j == |m.keys| { assert (m.keys + [key])[i] == m.keys[i]; }
        }
      }
      Entries(m.keys + [key], m.items[key := value])
  }

  /** `map.values`, in key order. */
  function Values<K(==), V>(m: LinkedMap<K, V>): (r: seq<V>)
    ensures |r| == |m.keys|
    ensures forall i :: 0 <= i < |m.keys| ==> r[i] == m.items[m.keys[i]]
  {
    seq(|m.keys|, i requires 0 <= i < |m.keys| => m.items[m.keys[i]])
  }

  /** `map.mapValues { (k, v) -> f(k, v) }`: same keys in the same order. */
  function MapValues<K(==), V, W>(m: LinkedMap<K, V>, f: (K, V) -> W): (r: LinkedMap<K, W>)
    ensures r.keys == m.keys
    ensures forall k | k in m.items :: r.items[k] == f(k, m.items[k])
  {
    Entries(m.keys, map k | k in m.items :: f(k, m.items[k]))
  }

  /** `map.filterKeys(p)`: the entries whose key passes `p`, in the same order. */
  function FilterKeys<K(==), V>(m: LinkedMap<K, V>, p: K -> bool): (r: LinkedMap<K, V>)
    ensures r.keys == Filter(m.keys, p)
    ensures forall k | k in r.items :: k in m.items && p(k) && r.items[k] == m.items[k]
  {
    FilterKeepsDistinct(m.keys, p);
    Entries(Filter(m.keys, p), map k | k in m.items && p(k) :: m.items[k])
  }
}
