/**
  Whole histories of writes applied to a freshly constructed store. The
  store's mapping after a history is characterised without replaying it:
  a key is present exactly when it was Put and not Deleted since, and its
  value is the one written by the last Put or Update of that key. A failed
  Update or Delete leaves the store as it was.
 */
module StoreHistory {
  import opened StoreSpec

  /** One write request as the handlers issue it. */
  datatype Op<K, V> = PutOp(key: K, val: V) | UpdateOp(key: K, val: V) | DeleteOp(key: K)

  /** `op` stores a value under `k` (when it succeeds). */
  predicate Writes<K(==), V>(op: Op<K, V>, k: K)
  {
    (op.PutOp? || op.UpdateOp?) && op.key == k
  }

  /** The mapping after `op`; a failed operation changes nothing. */
  function Apply<K(==), V>(m: map<K, V>, op: Op<K, V>): map<K, V>
  {
    match op
    case PutOp(k, v) => Put(m, k, v)
    case UpdateOp(k, v) => After(m, Update(m, k, v))
    case DeleteOp(k) => After(m, Delete(m, k))
  }

  /** The mapping after running `ops` in order on a new, empty store. */
  function Run<K(==), V>(ops: seq<Op<K, V>>): map<K, V>
  {
    if ops == [] then map[] else Apply(Run(ops[..|ops| - 1]), ops[|ops| - 1])
  }

  /** Some Put of `k` in `ops` is followed by no Delete of `k`. */
  ghost predicate PutAndNotDeleted<K, V>(ops: seq<Op<K, V>>, k: K)
  {
    exists i :: 0 <= i < |ops| && ops[i].PutOp? && ops[i].key == k &&
      forall j :: i < j < |ops| ==> ops[j] != DeleteOp(k)
  }

  /** The last operation in `ops` that writes `k` wrote `v`. */
  ghost predicate LastWriteIs<K, V>(ops: seq<Op<K, V>>, k: K, v: V)
  {
    exists i :: 0 <= i < |ops| && Writes(ops[i], k) && ops[i].val == v &&
      forall j :: i < j < |ops| ==> !Writes(ops[j], k)
  }

  /** Which keys `op` leaves present, and what they then hold. */
  lemma ApplyEffect<K, V>(m: map<K, V>, op: Op<K, V>, k: K)
    ensures k in Apply(m, op) <==>
      (if op.key == k then op.PutOp? || (op.UpdateOp? && k in m) else k in m)
    ensures k in Apply(m, op) ==>
      Apply(m, op)[k] == (if Writes(op, k) then op.val else m[k])
  {
  }

  /** A history ending in a Put of `k` leaves `k` Put and not Deleted. */
  lemma PutAndNotDeletedByLastPut<K, V>(ops: seq<Op<K, V>>, k: K)
    requires ops != [] && ops[|ops| - 1].PutOp? && ops[|ops| - 1].key == k
    ensures PutAndNotDeleted(ops, k)
  {
  }

  /** A history ending in a Delete of `k` does not leave `k` Put and not Deleted. */
  lemma NotPutAndNotDeletedByLastDelete<K, V>(ops: seq<Op<K, V>>, k: K)
    requires ops != [] && ops[|ops| - 1] == DeleteOp(k)
    ensures !PutAndNotDeleted(ops, k)
  {
  }

  /** An operation that neither Puts nor Deletes `k` keeps whether `k` is Put and not Deleted. */
  lemma PutAndNotDeletedStep<K, V>(ops: seq<Op<K, V>>, k: K)
    requires ops != []
    requires !(ops[|ops| - 1].PutOp? && ops[|ops| - 1].key == k)
    requires ops[|ops| - 1] != DeleteOp(k)
    ensures PutAndNotDeleted(ops, k) <==> PutAndNotDeleted(ops[..|ops| - 1], k)
  {
  }

  /**
    The mapping's key set is exactly the set of keys ever Put and not
    Deleted since; Update never changes which keys are present.
   */
  lemma {:induction false} KeysArePutAndNotDeleted<K, V>(ops: seq<Op<K, V>>, k: K)
    ensures k in Run(ops) <==> PutAndNotDeleted(ops, k)
  {
    if ops == [] {
      return;
    }
    var n := |ops| - 1;
    var p := ops[..n];
    assert Run(ops) == Apply(Run(p), ops[n]);
    KeysArePutAndNotDeleted(p, k);
    ApplyEffect(Run(p), ops[n], k);
    if ops[n].PutOp? && ops[n].key == k {
      PutAndNotDeletedByLastPut(ops, k);
    } else if ops[n] == DeleteOp(k) {
      NotPutAndNotDeletedByLastDelete(ops, k);
    } else {
      PutAndNotDeletedStep(ops, k);
    }
  }

  /** A history whose last operation writes `k` has that write as its last. */
  lemma LastWriteIsLast<K, V>(ops: seq<Op<K, V>>, k: K)
    requires ops != [] && Writes(ops[|ops| - 1], k)
    ensures LastWriteIs(ops, k, ops[|ops| - 1].val)
  {
  }

  /** An operation that does not write `k` keeps the last write of `k`. */
  lemma LastWriteIsStep<K, V>(ops: seq<Op<K, V>>, k: K, v: V)
    requires ops != [] && !Writes(ops[|ops| - 1], k)
    requires LastWriteIs(ops[..|ops| - 1], k, v)
    ensures LastWriteIs(ops, k, v)
  {
  }

  /**
    Every present key holds the value of the last Put or Update of that key:
    the last write wins, and no entry holds a value nobody wrote.
   */
  lemma {:induction false} LastWriteWins<K, V>(ops: seq<Op<K, V>>, k: K)
    requires k in Run(ops)
    ensures LastWriteIs(ops, k, Run(ops)[k])
  {
    assert ops != [];
    var n := |ops| - 1;
    var p := ops[..n];
    assert Run(ops) == Apply(Run(p), ops[n]);
    ApplyEffect(Run(p), ops[n], k);
    if Writes(ops[n], k) {
      LastWriteIsLast(ops, k);
    } else {
      LastWriteWins(p, k);
      LastWriteIsStep(ops, k, Run(p)[k]);
    }
  }

  /** A key that no operation ever Put reads as NotFound. */
  lemma NeverPutIsNotFound<K, V>(ops: seq<Op<K, V>>, k: K)
    requires forall i :: 0 <= i < |ops| ==> !(ops[i].PutOp? && ops[i].key == k)
    ensures Get(Run(ops), k) == Err(NotFound)
  {
    KeysArePutAndNotDeleted(ops, k);
  }

  /** After any Delete of `k`, Get reports `k` NotFound. */
  lemma AbsentAfterDelete<K, V>(ops: seq<Op<K, V>>, k: K)
    ensures Get(Run(ops + [DeleteOp(k)]), k) == Err(NotFound)
  {
    assert (ops + [DeleteOp(k)])[..|ops|] == ops;
  }
}
