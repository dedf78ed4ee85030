/** JavaScript's `Map`: a mutable map that remembers the order in which its keys were first set. */
module OrderedMaps {
  import opened Prelude
  import opened Lists

  class OrderedMap<K(==, !new), V> {
    var keys: seq<K>
    var entries: map<K, V>

    ghost predicate Valid()
      reads this
    {
      Distinct(keys) && forall k :: k in keys <==> k in entries
    }

    constructor ()
      ensures Valid() && keys == [] && entries == map[]
    {
      keys, entries := [], map[];
    }

    method Get(key: K) returns (value: Option<V>)
      ensures value == if key in entries then Some(entries[key]) else None
    {
      value := if key in entries then Some(entries[key]) else None;
    }

    /** Setting a key again keeps its place. */
    method Set(key: K, value: V)
      requires Valid()
      modifies this
      ensures Valid() && entries == old(entries)[key := value]
      ensures keys == if key in old(keys) then old(keys) else old(keys) + [key]
    {
      if key !in entries {
        DistinctNext(keys, key);
        keys := keys + [key];
      }
      entries := entries[key := value];
    }

    method Delete(key: K)
      requires Valid()
      modifies this
      ensures Valid() && entries == old(entries) - {key}
      ensures keys == Without(old(keys), {key})
    {
      FilterDistinct(NotIn({key}), keys);
      FilterHas(NotIn({key}), keys);
      keys := Without(keys, {key});
      entries := entries - {key};
    }
  }
}
