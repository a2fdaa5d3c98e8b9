/**
 * A map whose lookup never misses: reading an absent key first stores the
 * default value under it. The default is fixed when the map is built; the
 * source builds a fresh one on every miss, which for a value is the same.
 */
module DefaultMaps {

  /** What a lookup returns, and the map as it is afterwards. */
  datatype Fetched<K, V> = Fetched(value: V, entries: map<K, V>)

  /** The behaviour of `get`, on the map's contents. */
  function Lookup<K, V>(entries: map<K, V>, fallback: V, key: K): (r: Fetched<K, V>)
    ensures key in r.entries && r.value == r.entries[key]
    ensures key in entries ==> r.value == entries[key] && r.entries == entries
    ensures key !in entries ==> r.value == fallback && r.entries.Keys == entries.Keys + {key}
    ensures forall k :: k in entries ==> k in r.entries
    ensures forall k :: k in r.entries && k != key ==> k in entries && r.entries[k] == entries[k]
  {
    if key in entries then Fetched(entries[key], entries)
    else Fetched(fallback, entries[key := fallback])
  }

  /** A second `get` of the same key returns the same value and changes nothing. */
  lemma LookupTwice<K, V>(entries: map<K, V>, fallback: V, key: K)
    ensures var first := Lookup(entries, fallback, key);
            Lookup(first.entries, fallback, key) == first
  {
  }

  class DefaultMap<K(==), V> {
    var entries: map<K, V>
    /** The value a miss inserts (`default_constructor` in the source). */
    const fallback: V

    /** The extra arguments of the source's constructor seed the underlying map. */
    constructor (fallback: V, initial: map<K, V>)
      ensures this.fallback == fallback && entries == initial
    {
      this.fallback := fallback;
      entries := initial;
    }

    predicate Has(key: K)
      reads this
    {
      key in entries
    }

    method Get(key: K) returns (v: V)
      modifies this
      ensures Has(key)
      ensures Fetched(v, entries) == Lookup(old(entries), fallback, key)
      ensures old(Has(key)) ==> v == old(entries)[key] && entries == old(entries)
      ensures !old(Has(key)) ==> v == fallback && entries == old(entries)[key := fallback]
    {
      if key in entries {
        v := entries[key];
        return;
      }
      v := fallback;
      entries := entries[key := v];
    }
  }
}
