/**
  The generic in-memory key-value store: one mapping, changed in place by
  Put, Update and Delete and read by Get and Has. Each method does to `data`
  what the function of the same name in `StoreSpec` says, and its own
  `ensures` spell out the effect on the touched key and on all other keys.
 */
module Store {
  import opened StoreSpec

  class KVStore<K(==), V> {
    /** The store's entries; the only state the store has. */
    var data: map<K, V>

    /** A new store holds no entries, so every key is absent. */
    constructor ()
      ensures data == map[]
      ensures forall k :: k !in data
    {
      data := map[];
    }

    /**
      Put never fails. Afterwards `key` holds `val`; every other key keeps its
      presence and its value.
     */
    method Put(key: K, val: V) returns (r: Result<()>)
      modifies this
      ensures r == Ok(())
      ensures data == StoreSpec.Put(old(data), key, val)
      ensures key in data && data[key] == val
      ensures forall j :: j != key ==> (j in data <==> j in old(data))
      ensures forall j :: j in old(data) && j != key ==> data[j] == old(data)[j]
    {
      data := data[key := val];
      r := Ok(());
    }

    /**
      Get returns the stored value of a present key and NotFound for an
      absent one; it changes nothing.
     */
    method Get(key: K) returns (r: Result<V>)
      ensures r == StoreSpec.Get(data, key)
      ensures r.Ok? <==> key in data
      ensures r.Ok? ==> r.value == data[key]
      ensures r.Err? ==> r.error == NotFound
    {
      if key !in data {
        return Err(NotFound);
      }
      r := Ok(data[key]);
    }

    /**
      Update fails with NotFound, changing nothing, exactly when Has would
      have answered false; otherwise it overwrites the value of `key` and
      leaves the key set and every other entry as they were.
     */
    method Update(key: K, val: V) returns (r: Result<()>)
      modifies this
      ensures r.Ok? <==> key in old(data)
      ensures r.Err? ==> r.error == NotFound && data == old(data)
      ensures data == After(old(data), StoreSpec.Update(old(data), key, val))
      ensures r.Ok? ==> data.Keys == old(data).Keys && data[key] == val
      ensures forall j :: j in old(data) && j != key ==> data[j] == old(data)[j]
    {
      var present := Has(key);
      if !present {
        return Err(NotFound);
      }
      data := data[key := val];
      r := Ok(());
    }

    /**
      Delete fails with NotFound, changing nothing, when `key` is absent;
      otherwise it removes exactly that key and every other entry stays.
     */
    method Delete(key: K) returns (r: Result<()>)
      modifies this
      ensures r.Ok? <==> key in old(data)
      ensures r.Err? ==> r.error == NotFound && data == old(data)
      ensures data == After(old(data), StoreSpec.Delete(old(data), key))
      ensures r.Ok? ==> key !in data && data.Keys == old(data).Keys - {key}
      ensures forall j :: j in data ==> j in old(data) && data[j] == old(data)[j]
    {
      if key !in data {
        return Err(NotFound);
      }
      data := data - {key};
      r := Ok(());
    }

    /** Has answers whether `key` is present; it never fails and changes nothing. */
    method Has(key: K) returns (b: bool)
      ensures b <==> key in data
      ensures b <==> StoreSpec.Get(data, key).Ok?
    {
      b := key in data;
    }
  }
}
