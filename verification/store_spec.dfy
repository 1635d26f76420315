/**
  The meaning of each key-value store operation, stated on the store's
  mapping as a value. The class in `Store` changes its `data` field in place
  exactly as these functions say; `StoreHistory` runs whole sequences of them.
 */
module StoreSpec {

  /** The one error the store reports: the key is absent from the mapping. */
  datatype Error = NotFound

  /** What an operation returns: a value, or the error that replaced it. */
  datatype Result<T> = Ok(value: T) | Err(error: Error)

  /** Put inserts or overwrites `k`; no other entry moves. */
  function Put<K(==), V>(m: map<K, V>, k: K, v: V): (m': map<K, V>)
    ensures k in m' && m'[k] == v
    ensures m'.Keys == m.Keys + {k}
    ensures forall j :: j in m && j != k ==> m'[j] == m[j]
  {
    m[k := v]
  }

  /** Get yields the stored value of a present key and NotFound for an absent one. */
  function Get<K(==), V>(m: map<K, V>, k: K): (r: Result<V>)
    ensures r.Ok? <==> k in m
    ensures r.Ok? ==> r.value == m[k]
    ensures r.Err? ==> r.error == NotFound
  {
    if k in m then Ok(m[k]) else Err(NotFound)
  }

  /**
    Update is Put restricted to keys that are already present: on an absent
    key it fails and there is no new mapping, on a present one the key set
    stays the same.
   */
  function Update<K(==), V>(m: map<K, V>, k: K, v: V): (r: Result<map<K, V>>)
    ensures r.Err? <==> k !in m
    ensures r.Err? ==> r.error == NotFound
    ensures r.Ok? ==> r.value.Keys == m.Keys && r.value == Put(m, k, v)
  {
    if k !in m then Err(NotFound) else Ok(m[k := v])
  }

  /** Delete removes a present key and leaves every other entry as it was. */
  function Delete<K(==), V>(m: map<K, V>, k: K): (r: Result<map<K, V>>)
    ensures r.Err? <==> k !in m
    ensures r.Err? ==> r.error == NotFound
    ensures r.Ok? ==> r.value.Keys == m.Keys - {k}
    ensures r.Ok? ==> forall j :: j in r.value ==> r.value[j] == m[j]
    ensures r.Ok? ==> |r.value| == |m| - 1
  {
    if k !in m then Err(NotFound) else Ok(m - {k})
  }

  /** The mapping a failed operation leaves behind is the one it started from. */
  function After<K(==), V>(m: map<K, V>, r: Result<map<K, V>>): (m': map<K, V>)
    ensures r.Err? ==> m' == m
    ensures r.Ok? ==> m' == r.value
  {
    match r
    case Ok(n) => n
    case Err(_) => m
  }

  // ---------------------------------------------------------------------
  // Laws relating the operations to each other.
  // ---------------------------------------------------------------------

  /** A Get straight after a Put of the same key sees the value put. */
  lemma GetAfterPut<K, V>(m: map<K, V>, k: K, v: V)
    ensures Get(Put(m, k, v), k) == Ok(v)
  {
  }

  /** A Put to one key is invisible to a Get of any other key. */
  lemma GetAfterPutOther<K, V>(m: map<K, V>, k: K, v: V, j: K)
    requires j != k
    ensures Get(Put(m, k, v), j) == Get(m, j)
  {
  }

  /** The last of two Puts to the same key wins, whatever the first wrote. */
  lemma LastPutWins<K, V>(m: map<K, V>, k: K, v1: V, v2: V)
    ensures Put(Put(m, k, v1), k, v2) == Put(m, k, v2)
  {
  }

  /** Update succeeds exactly when the key is present, and then acts as Put. */
  lemma UpdateIsGuardedPut<K, V>(m: map<K, V>, k: K, v: V)
    ensures Update(m, k, v).Ok? <==> Get(m, k).Ok?
    ensures Update(m, k, v).Ok? ==> Update(m, k, v).value == Put(m, k, v)
  {
  }

  /** After a successful Delete the key reads as absent. */
  lemma GetAfterDelete<K, V>(m: map<K, V>, k: K)
    requires k in m
    ensures Delete(m, k).Ok? && Get(Delete(m, k).value, k) == Err(NotFound)
  {
  }

  /** Deleting twice: the second Delete of the same key fails. */
  lemma DeleteTwiceFails<K, V>(m: map<K, V>, k: K)
    requires k in m
    ensures Delete(Delete(m, k).value, k) == Err(NotFound)
  {
  }

  /** Put of a fresh key is undone by Delete of that key. */
  lemma DeleteUndoesPut<K, V>(m: map<K, V>, k: K, v: V)
    requires k !in m
    ensures Delete(Put(m, k, v), k) == Ok(m)
  {
    var n := Delete(Put(m, k, v), k).value;
    assert n.Keys == m.Keys;
    assert forall j :: j in n ==> n[j] == m[j];
    assert n == m;
  }

  /** An Update is undone by an Update that writes the old value back. */
  lemma UpdateUndoesUpdate<K, V>(m: map<K, V>, k: K, v: V)
    requires k in m
    ensures Update(Update(m, k, v).value, k, m[k]) == Ok(m)
  {
    var n := Update(Update(m, k, v).value, k, m[k]).value;
    assert n.Keys == m.Keys;
    assert forall j :: j in n ==> n[j] == m[j];
    assert n == m;
  }
}
