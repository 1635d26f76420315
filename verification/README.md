# KV_Store in Dafny

A model of the in-memory key-value store `KVStore[K, V]` of the KV_Store
service (main.go), and the small choices its HTTP handlers make from the
store's answers.

The store is one mapping from keys to values. `NewKVStore` creates it
empty. `Put` inserts or overwrites a key and never fails. `Get` returns a
key's value or a not-found error. `Update` overwrites a key only if `Has`
says it is present, and fails otherwise. `Delete` removes a key only if it
is present, and fails otherwise. `Has` is a membership test.

- `store_spec.dfy` (module `StoreSpec`): the operations as functions on the
  mapping as a value, with the one error kind `NotFound` and a `Result`
  datatype. Also the laws that relate the operations: a Put is seen by the
  next Get, the last Put wins, Update is a Put guarded by presence, Delete
  undoes a Put of a fresh key, and Update undoes an Update.
- `store.dfy` (module `Store`): the class `KVStore<K, V>` with its single
  field `data: map<K, V>`. Put, Update and Delete reassign the field in
  place. Get and Has only read it. Each method's contract gives the new
  mapping through the `StoreSpec` function of the same name. It also states
  directly what happens to the touched key and to every other key.
- `store_history.dfy` (module `StoreHistory`): sequences of writes run on
  a new store. A key is present exactly when it was Put and not Deleted
  since. A present key holds the value of its last Put or Update.
- `server.dfy` (module `Server`): the response each handler gives for the
  store's result, the handlers as methods of a `Server` that owns one
  string-to-string store, and a client session that puts, reads, updates
  and deletes a key.

## Model

| member | source | states |
|---|---|---|
| `StoreSpec.Put` | main.go:35-42 | afterwards the key holds the new value, the key set gains at most that key, and every other entry keeps its value |
| `StoreSpec.Get` | main.go:46-57 | succeeds exactly when the key is present and then returns its stored value; otherwise fails with NotFound |
| `StoreSpec.Update` | main.go:61-72 | fails with NotFound exactly when the key is absent; otherwise acts as Put and keeps the key set |
| `StoreSpec.Delete` | main.go:76-89 | fails with NotFound exactly when the key is absent; otherwise removes exactly that key, keeps every other entry and shrinks the store by one |
| `StoreSpec.GetAfterPut` | main.go:35-57 | a Get right after a Put of the same key returns the value put |
| `StoreSpec.GetAfterPutOther` | main.go:35-57 | a Put to one key does not change what Get returns for any other key |
| `StoreSpec.LastPutWins` | main.go:35-42 | of two Puts to one key, the second decides the result |
| `StoreSpec.UpdateIsGuardedPut` | main.go:61-72 | Update succeeds iff Get would find the key, and then its result equals Put's |
| `StoreSpec.GetAfterDelete` | main.go:76-89 | after a successful Delete the key reads as NotFound |
| `StoreSpec.DeleteTwiceFails` | main.go:76-89 | a second Delete of the same key fails with NotFound |
| `StoreSpec.DeleteUndoesPut` | main.go:35-89 | a Delete of a key that was absent before a Put restores the earlier mapping |
| `StoreSpec.UpdateUndoesUpdate` | main.go:61-72 | an Update that writes the old value back restores the earlier mapping |
| `Store.KVStore.constructor` | main.go:27-31 | a new store's mapping is empty, so every key is absent |
| `Store.KVStore.Put` | main.go:35-42 | never fails; the key now holds the value; every other key keeps its presence and value |
| `Store.KVStore.Get` | main.go:46-57 | returns the stored value iff the key is present, NotFound otherwise; changes nothing |
| `Store.KVStore.Update` | main.go:61-72 | succeeds iff the key was present; on failure the mapping is exactly as before; on success only that key's value changes and the key set stays |
| `Store.KVStore.Delete` | main.go:76-89 | succeeds iff the key was present; on failure the mapping is exactly as before; on success only that key is removed and all other entries stay |
| `Store.KVStore.Has` | main.go:174-178 | true iff the key is in the mapping, which is exactly when Get succeeds; changes nothing |
| `StoreHistory.ApplyEffect` | main.go:35-89 | after one write, which keys are present and what they hold, by kind of write |
| `StoreHistory.KeysArePutAndNotDeleted` | main.go:27-89 | after any sequence of writes on a new store, a key is present iff some Put of it is followed by no Delete of it |
| `StoreHistory.LastWriteWins` | main.go:35-72 | after any sequence of writes, a present key holds the value of the last Put or Update of that key |
| `StoreHistory.NeverPutIsNotFound` | main.go:46-57 | a key no write ever Put is reported NotFound by Get |
| `StoreHistory.AbsentAfterDelete` | main.go:76-89 | after a Delete of a key, whatever came before, Get reports it NotFound |
| `Server.PutResponse` | main.go:108-115 | the Put handler always answers 200 with msg "ok" |
| `Server.GetResponse` | main.go:117-126 | the Get handler always answers 200; the body's value is the stored value on a hit and "key not found" on a miss |
| `Server.UpdateResponse` | main.go:128-137 | the Update handler fails with the store's error exactly when the store failed, and otherwise answers 200 with msg "updated" |
| `Server.DeleteResponse` | main.go:139-147 | the Delete handler fails with the store's error exactly when the store failed, and otherwise answers 200 with msg "deleted" |
| `Server.GetMissLooksLikeSentinelValue` | main.go:120-125 | a miss and a stored value "key not found" give the same Get response |
| `Server.Server.constructor` | main.go:98-103 | a new server owns a fresh, empty store |
| `Server.Server.HandlePut` | main.go:108-115 | stores the value under the key and answers "ok" |
| `Server.Server.HandleGet` | main.go:117-126 | answers with the stored value when the key is present, otherwise with "key not found" |
| `Server.Server.HandleUpdate` | main.go:128-137 | updates the store as Update does and fails exactly when the key was absent |
| `Server.Server.HandleDelete` | main.go:139-147 | deletes as Delete does and fails exactly when the key was absent |
| `Server.PutGetUpdateDeleteSession` | main.go:108-147 | put a=1, get, update a=2, get, delete, get, then update and delete a missing key give ok, 1, updated, 2, deleted, "key not found" and two failures |

## Left out

- The `sync.RWMutex` and its lock and unlock calls (main.go:21, 37-38, 47-48, 62-63, 77-78). Each operation runs as one atomic step here. `Has` (main.go:174-178) takes no lock of its own; it is atomic only because its one caller, `Update`, already holds the write lock (main.go:62-65). Concurrent interleavings are not modelled.
- Keys whose equality is not reflexive or can panic. The class takes `K(==)`, so every key equals itself and can serve as a map key. Go's `comparable` promises less. A `float64` NaN key (or a struct holding one) never equals itself, so each Put of it adds a new entry and Get and Delete of it fail (main.go:39, 50-53, 80-82). With an interface key type such as `any`, a key whose dynamic type is unhashable (a slice, say) makes every operation panic (main.go:39, 50, 80, 175). The model covers keys with reflexive, panic-free equality, which includes the deployed string-to-string store (main.go:101).
- The text of the error messages, which names the key and misspells "exists" in Delete. Every error is the one value `NotFound`.
- Store.KVStore.Get: Go also returns the value type's zero value on a miss. The model's `Result` has no value in the error case. The handlers never read that value.
- The log line printed after a successful Delete (main.go:87) and the server start message (main.go:152). They are output only.
- The `Storer` interface (main.go:11-16). It declares the method signatures and has no behaviour.
- `Server.Start`, route registration, `main`, the listen address, and the web framework's parameter parsing and JSON encoding (main.go:151-170). The framework is not part of this model. A handler's returned error is modelled as a `Failed` response carrying the store error. The HTTP status the framework would choose for it is not modelled.
- Concurrent histories. `StoreHistory` covers sequential histories of Put, Update and Delete. Get and Has do not change the store, so they are left out of the histories.
