/** The request handlers of httpKVstore.go: `auth`, `get` and `set`, and the
    store they serve, the bucket "main" opened at startup. */
module KVStore {
  import opened Wrappers
  import opened GoRuntime
  import opened Http
  import Bolt

  /** The bucket name, "main". */
  const MainBucket: Bytes := [0x6d, 0x61, 0x69, 0x6e]

  /** What one handler call produces: the response, the bucket afterwards,
      and which Bolt transaction it opened. */
  datatype Outcome = Outcome(resp: Response, bucket: Bolt.Bucket, tx: Bolt.TxKind)

  /** `auth`: the credential path segment must equal the configured secret
      exactly; otherwise the request is aborted with 401. None means the
      handler may go on. */
  function Auth(secret: string, authkey: string): (rejection: Option<Response>)
    ensures rejection.None? <==> authkey == secret
    ensures rejection.Some? ==> rejection.value == Unauthorized
  {
    if authkey == secret then None else Some(Unauthorized)
  }

  /** The startup transaction: the bucket "main" of the database file,
      created empty when the file does not hold it yet. */
  function OpenMainBucket(db: Bolt.DB): (b: Bolt.Bucket)
    ensures MainBucket in db ==> b == db[MainBucket]
    ensures MainBucket !in db ==> b == map[]
  {
    Bolt.CreateBucketIfNotExists(db, MainBucket)[MainBucket]
  }

  /** `get` as written. The value is read into a nil slice with `copy`,
      which copies nothing into it, so the slice is still nil when it is
      tested and every authorized lookup of a non-empty key answers 404,
      whatever the bucket holds. The bucket is never changed. */
  function HandleGet(bucket: Bolt.Bucket, secret: string, authkey: string, key: Bytes): (r: Outcome)
    ensures r.bucket == bucket
    ensures authkey != secret ==> r.resp == Unauthorized && r.tx == Bolt.NoTx
    ensures authkey == secret && key == [] ==> r.resp == NotFound && r.tx == Bolt.NoTx
    ensures authkey == secret && key != [] ==> r.resp == NotFound && r.tx == Bolt.ViewTx
  {
    match Auth(secret, authkey)
    case Some(rejection) => Outcome(rejection, bucket, Bolt.NoTx)
    case None =>
      if key == [] then Outcome(NotFound, bucket, Bolt.NoTx)
      else
        var value := Copy(Nil, Bolt.Get(bucket, key));
        match value
        case Nil => Outcome(NotFound, bucket, Bolt.ViewTx)
        case Slice(bytes) => Outcome(Ok(bytes), bucket, Bolt.ViewTx)
  }

  /** `set`: after authorization, an empty key or a body that could not be
      read answers 404 without touching the store; otherwise one write
      transaction puts the body under the key, and the answer is 200 when it
      commits and 404 when it fails, in which case nothing was written. */
  function HandleSet(bucket: Bolt.Bucket, secret: string, authkey: string, key: Bytes,
                     body: Bytes, bodyOk: bool, commits: bool): (r: Outcome)
    ensures authkey != secret ==> r == Outcome(Unauthorized, bucket, Bolt.NoTx)
    ensures authkey == secret && (key == [] || !bodyOk) ==> r == Outcome(NotFound, bucket, Bolt.NoTx)
    ensures authkey == secret && key != [] && bodyOk ==> r.tx == Bolt.UpdateTx
    ensures authkey == secret && key != [] && bodyOk && !commits ==>
      r == Outcome(NotFound, bucket, Bolt.UpdateTx)
    ensures r.resp == Unauthorized <==> authkey != secret
    ensures r.resp.status == StatusOK <==> authkey == secret && key != [] && bodyOk && commits
    ensures r.resp.status == StatusOK ==>
      r.resp.body == [] && key in r.bucket && r.bucket[key] == body && r.bucket - {key} == bucket - {key}
    ensures r.resp.status != StatusOK ==>
      r.bucket == bucket && (r.resp == Unauthorized || r.resp == NotFound)
  {
    match Auth(secret, authkey)
    case Some(rejection) => Outcome(rejection, bucket, Bolt.NoTx)
    case None =>
      if key == [] || !bodyOk then Outcome(NotFound, bucket, Bolt.NoTx)
      else
        var result := Bolt.UpdatePut(bucket, key, body, commits);
        if result.err then Outcome(NotFound, result.bucket, Bolt.UpdateTx)
        else Outcome(Ok([]), result.bucket, Bolt.UpdateTx)
  }

  /** The running service: the configured secret and the bucket "main". */
  class Server {
    const secret: string
    var bucket: Bolt.Bucket

    /** Startup: the secret is fixed for the life of the process, and the
        bucket "main" is created if the database file lacks it, otherwise
        its records are kept. */
    constructor (secret: string, db: Bolt.DB)
      ensures this.secret == secret
      ensures MainBucket in db ==> bucket == db[MainBucket]
      ensures MainBucket !in db ==> bucket == map[]
    {
      this.secret := secret;
      var created := Bolt.CreateBucketIfNotExists(db, MainBucket);
      bucket := created[MainBucket];
    }

    /** `GET /api/:authkey/:key`. Reads the store inside a read-only
        transaction and never changes it. */
    method Get(authkey: string, key: Bytes) returns (resp: Response, ghost tx: Bolt.TxKind)
      ensures Outcome(resp, bucket, tx) == HandleGet(bucket, secret, authkey, key)
      ensures resp == Unauthorized <==> authkey != secret
      ensures resp.status != StatusOK
    {
      tx := Bolt.NoTx;
      var rejection := Auth(secret, authkey);
      if rejection.Some? {
        resp := rejection.value;
        return;
      }
      if key == [] {
        resp := NotFound;
        return;
      }
      var value: Slice := Nil;
      tx := Bolt.ViewTx;
      var v := Bolt.Get(bucket, key);
      value := Copy(value, v);
      if value == Nil {
        resp := NotFound;
        return;
      }
      resp := Ok(Elems(value));
    }

    /** `PUT /api/:authkey/:key` with the request body. `bodyOk` says
        whether the body was read in full; `commits` is the engine's verdict
        on the write transaction. */
    method Set(authkey: string, key: Bytes, body: Bytes, bodyOk: bool, commits: bool)
      returns (resp: Response, ghost tx: Bolt.TxKind)
      modifies this
      ensures Outcome(resp, bucket, tx)
           == HandleSet(old(bucket), secret, authkey, key, body, bodyOk, commits)
      ensures resp.status == StatusOK ==> key in bucket && bucket[key] == body
      ensures bucket - {key} == old(bucket) - {key}
      ensures resp.status != StatusOK ==> bucket == old(bucket)
    {
      tx := Bolt.NoTx;
      var rejection := Auth(secret, authkey);
      if rejection.Some? {
        resp := rejection.value;
        return;
      }
      if key == [] || !bodyOk {
        resp := NotFound;
        return;
      }
      tx := Bolt.UpdateTx;
      var result := Bolt.UpdatePut(bucket, key, body, commits);
      bucket := result.bucket;
      if result.err {
        resp := NotFound;
        return;
      }
      resp := Ok([]);
    }
  }
}
