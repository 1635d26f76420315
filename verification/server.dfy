/**
  The HTTP handlers over a string-to-string store, reduced to what they
  decide: which store operation to call and which response to give for its
  result. Route registration, parameter extraction and JSON encoding are
  not modelled; a key and a value arrive as strings and a response is a
  status with a body of string fields, or the store's error handed back to
  the web framework.
 */
module Server {
  import opened StoreSpec
  import opened Store

  const StatusOK: int := 200

  /** The body text the Get handler sends in place of a missing value. */
  const KeyNotFoundText: string := "key not found"

  datatype Response =
    | Json(status: int, body: map<string, string>)
    | Failed(error: Error)

  /** The Put handler ignores the store's result and always answers "ok". */
  function PutResponse(r: Result<()>): (resp: Response)
    ensures resp.Json? && resp.status == StatusOK
    ensures resp.body.Keys == {"msg"} && resp.body["msg"] == "ok"
  {
    Json(StatusOK, map["msg" := "ok"])
  }

  /**
    The Get handler answers 200 in both cases: the stored value on a hit,
    the text "key not found" on a miss.
   */
  function GetResponse(r: Result<string>): (resp: Response)
    ensures resp.Json? && resp.status == StatusOK && resp.body.Keys == {"value"}
    ensures r.Ok? ==> resp.body["value"] == r.value
    ensures r.Err? ==> resp.body["value"] == KeyNotFoundText
  {
    match r
    case Ok(v) => Json(StatusOK, map["value" := v])
    case Err(_) => Json(StatusOK, map["value" := KeyNotFoundText])
  }

  /** The Update handler hands a store error back; on success it answers "updated". */
  function UpdateResponse(r: Result<()>): (resp: Response)
    ensures resp.Failed? <==> r.Err?
    ensures r.Err? ==> resp.error == r.error
    ensures r.Ok? ==> resp == Json(StatusOK, map["msg" := "updated"])
  {
    match r
    case Ok(_) => Json(StatusOK, map["msg" := "updated"])
    case Err(e) => Failed(e)
  }

  /** The Delete handler hands a store error back; on success it answers "deleted". */
  function DeleteResponse(r: Result<()>): (resp: Response)
    ensures resp.Failed? <==> r.Err?
    ensures r.Err? ==> resp.error == r.error
    ensures r.Ok? ==> resp == Json(StatusOK, map["msg" := "deleted"])
  {
    match r
    case Ok(_) => Json(StatusOK, map["msg" := "deleted"])
    case Err(e) => Failed(e)
  }

  /**
    The Get response cannot tell a missing key from a key whose stored value
    is the text "key not found".
   */
  lemma GetMissLooksLikeSentinelValue()
    ensures GetResponse(Err(NotFound)) == GetResponse(Ok(KeyNotFoundText))
  {
  }

  /** The server owns one string-to-string store for its whole life. */
  class Server {
    const storage: KVStore<string, string>

    constructor ()
      ensures fresh(storage) && storage.data == map[]
    {
      storage := new KVStore<string, string>();
    }

    method HandlePut(key: string, value: string) returns (resp: Response)
      modifies storage
      ensures storage.data == StoreSpec.Put(old(storage.data), key, value)
      ensures resp == PutResponse(Ok(()))
    {
      var r := storage.Put(key, value);
      resp := PutResponse(r);
    }

    method HandleGet(key: string) returns (resp: Response)
      ensures resp == GetResponse(StoreSpec.Get(storage.data, key))
      ensures key in storage.data ==> resp.body["value"] == storage.data[key]
      ensures key !in storage.data ==> resp.body["value"] == KeyNotFoundText
    {
      var r := storage.Get(key);
      resp := GetResponse(r);
    }

    method HandleUpdate(key: string, value: string) returns (resp: Response)
      modifies storage
      ensures storage.data == After(old(storage.data), StoreSpec.Update(old(storage.data), key, value))
      ensures resp == UpdateResponse(if key in old(storage.data) then Ok(()) else Err(NotFound))
    {
      var r := storage.Update(key, value);
      resp := UpdateResponse(r);
    }

    method HandleDelete(key: string) returns (resp: Response)
      modifies storage
      ensures storage.data == After(old(storage.data), StoreSpec.Delete(old(storage.data), key))
      ensures resp == DeleteResponse(if key in old(storage.data) then Ok(()) else Err(NotFound))
    {
      var r := storage.Delete(key);
      resp := DeleteResponse(r);
    }
  }

  /**
    A client session against a new server: put, get, update, get, delete,
    get, then an update and a delete of a key that was never stored.
   */
  method PutGetUpdateDeleteSession() returns (responses: seq<Response>)
    ensures responses == [
      Json(StatusOK, map["msg" := "ok"]),
      Json(StatusOK, map["value" := "1"]),
      Json(StatusOK, map["msg" := "updated"]),
      Json(StatusOK, map["value" := "2"]),
      Json(StatusOK, map["msg" := "deleted"]),
      Json(StatusOK, map["value" := KeyNotFoundText]),
      Failed(NotFound),
      Failed(NotFound)
    ]
  {
    var s := new Server();
    var r1 := s.HandlePut("a", "1");
    assert s.storage.data == map["a" := "1"];
    var r2 := s.HandleGet("a");
    var r3 := s.HandleUpdate("a", "2");
    assert s.storage.data == map["a" := "2"];
    var r4 := s.HandleGet("a");
    var r5 := s.HandleDelete("a");
    assert s.storage.data == map[];
    var r6 := s.HandleGet("a");
    var r7 := s.HandleUpdate("missing", "x");
    var r8 := s.HandleDelete("missing");
    responses := [r1, r2, r3, r4, r5, r6, r7, r8];
  }
}
