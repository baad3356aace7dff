/**
 Two dictionaries kept as exact inverses of each other.  The relation they stand
 for is the forward map; the invariant then fixes the reverse one.
 */
module BidirectionalDictionary {
  import opened Common

  class BidirectionalDictionary<K(==), V(==)> {
    var forward: map<K, V>
    var reverse: map<V, K>

    constructor ()
      ensures Valid() && forward == map[]
    {
      forward, reverse := map[], map[];
    }

    /** Each map undoes the other. */
    ghost predicate Valid()
      reads this
    {
      && (forall k :: k in forward ==> forward[k] in reverse && reverse[forward[k]] == k)
      && (forall v :: v in reverse ==> reverse[v] in forward && forward[reverse[v]] == v)
    }

    method Add(key: K, value: V) returns (ok: bool)
      requires Valid()
      modifies this
      ensures Valid() && ok == (key !in old(forward) && value !in old(reverse))
      ensures forward == if ok then old(forward)[key := value] else old(forward)
    {
      if key in forward || value in reverse {
        return false;
      }
      forward := forward[key := value];
      reverse := reverse[value := key];
      return true;
    }

    method GetByKey(key: K) returns (value: Outcome<V>)
      requires Valid()
      ensures value == if key in forward then Ok(forward[key]) else Failed
    {
      return if key in forward then Ok(forward[key]) else Failed;
    }

    method GetByValue(value: V) returns (key: Outcome<K>)
      requires Valid()
      ensures key.Ok? ==> key.value in forward && forward[key.value] == value
      ensures key.Failed? ==> forall k :: k in forward ==> forward[k] != value
    {
      return if value in reverse then Ok(reverse[value]) else Failed;
    }

    method RemoveByKey(key: K) returns (ok: bool)
      requires Valid()
      modifies this
      ensures Valid() && ok == (key in old(forward))
      ensures forward == old(forward) - {key}
    {
      if key !in forward {
        return false;
      }
      var value := forward[key];
      forward := forward - {key};
      reverse := reverse - {value};
      return true;
    }

    method RemoveByValue(value: V) returns (ok: bool)
      requires Valid()
      modifies this
      ensures Valid() && ok == (value in old(reverse))
      ensures forward == map k | k in old(forward) && old(forward)[k] != value :: old(forward)[k]
    {
      if value !in reverse {
        return false;
      }
      var key := reverse[value];
      reverse := reverse - {value};
      forward := forward - {key};
      return true;
    }

    method Clear()
      modifies this
      ensures Valid() && forward == map[]
    {
      forward, reverse := map[], map[];
    }

    /** `d[key] = value`: every pair sharing the key or the value goes, the new pair comes. */
    method Set(key: K, value: V)
      requires Valid()
      modifies this
      ensures Valid()
      ensures forward == (map k | k in old(forward) && k != key && old(forward)[k] != value :: old(forward)[k])[key := value]
    {
      if key in forward {
        var oldValue := forward[key];
        reverse := reverse - {oldValue};
      }
      if value in reverse {
        var oldKey := reverse[value];
        forward := forward - {oldKey};
      }
      forward := forward[key := value];
      reverse := reverse[value := key];
    }
  }
}
