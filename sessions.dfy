/** Requests served one after another against one store. Bolt runs write
    transactions one at a time and gives each read a consistent snapshot,
    so the effect of concurrent requests is that of some such sequence. */
module Sessions {
  import opened GoRuntime
  import opened Http
  import Bolt
  import opened KVStore

  /** A routed request: the `:authkey` and `:key` path segments, and for a
      PUT the body, whether it was read in full, and whether the write
      transaction commits. */
  datatype Request =
    | GetRequest(authkey: string, key: Bytes)
    | SetRequest(authkey: string, key: Bytes, body: Bytes, bodyOk: bool, commits: bool)

  /** Dispatch to the handler, as the router does for GET and PUT. A request
      changes at most the entry of its own key, a GET nothing, and a request
      with the wrong credential nothing. */
  function Handle(bucket: Bolt.Bucket, secret: string, req: Request): (r: Outcome)
    ensures r.bucket - {req.key} == bucket - {req.key}
    ensures req.GetRequest? ==> r.bucket == bucket
    ensures req.authkey != secret ==>
      r.resp == Unauthorized && r.bucket == bucket && r.tx == Bolt.NoTx
  {
    match req
    case GetRequest(authkey, key) => HandleGet(bucket, secret, authkey, key)
    case SetRequest(authkey, key, body, bodyOk, commits) =>
      HandleSet(bucket, secret, authkey, key, body, bodyOk, commits)
  }

  /** The bucket after serving the requests in order. */
  function Run(bucket: Bolt.Bucket, secret: string, reqs: seq<Request>): Bolt.Bucket
    decreases |reqs|
  {
    if reqs == [] then bucket
    else Run(Handle(bucket, secret, reqs[0]).bucket, secret, reqs[1..])
  }

  /** The same request sent n times. */
  function Repeat(req: Request, n: nat): seq<Request> {
    seq(n, _ => req)
  }

  /** True of a request that could write `key`: an authorized PUT of it. */
  predicate MayWrite(req: Request, secret: string, key: Bytes) {
    req.SetRequest? && req.authkey == secret && req.key == key
  }

  /** Requests with the wrong credential, however many, leave the store as
      it was. */
  lemma {:induction false} RunRejectedUnchanged(bucket: Bolt.Bucket, secret: string, reqs: seq<Request>)
    requires forall i :: 0 <= i < |reqs| ==> reqs[i].authkey != secret
    ensures Run(bucket, secret, reqs) == bucket
    decreases |reqs|
  {
    if reqs != [] {
      RunRejectedUnchanged(bucket, secret, reqs[1..]);
    }
  }

  /** Any number of GETs leave the store as it was. */
  lemma {:induction false} RunGetsUnchanged(bucket: Bolt.Bucket, secret: string, reqs: seq<Request>)
    requires forall i :: 0 <= i < |reqs| ==> reqs[i].GetRequest?
    ensures Run(bucket, secret, reqs) == bucket
    decreases |reqs|
  {
    if reqs != [] {
      RunGetsUnchanged(bucket, secret, reqs[1..]);
    }
  }

  /** The entry of a key that no request may write is the same afterwards:
      a write never disturbs another key. */
  lemma {:induction false} RunKeyUntouched(bucket: Bolt.Bucket, secret: string, reqs: seq<Request>, key: Bytes)
    requires forall i :: 0 <= i < |reqs| ==> !MayWrite(reqs[i], secret, key)
    ensures key in Run(bucket, secret, reqs) <==> key in bucket
    ensures key in bucket ==> Run(bucket, secret, reqs)[key] == bucket[key]
    decreases |reqs|
  {
    if reqs != [] {
      var next := Handle(bucket, secret, reqs[0]).bucket;
      assert key in next <==> key in bucket;
      assert key in bucket ==> next[key] == bucket[key];
      RunKeyUntouched(next, secret, reqs[1..], key);
    }
  }

  /** After a successful PUT, the key holds the body until another
      authorized PUT of the same key. */
  lemma LastWriteWins(bucket: Bolt.Bucket, secret: string, key: Bytes, body: Bytes, rest: seq<Request>)
    requires key != []
    requires forall i :: 0 <= i < |rest| ==> !MayWrite(rest[i], secret, key)
    ensures Bolt.Get(Run(bucket, secret, [SetRequest(secret, key, body, true, true)] + rest), key)
         == Slice(body)
  {
    var reqs := [SetRequest(secret, key, body, true, true)] + rest;
    var written := Handle(bucket, secret, reqs[0]).bucket;
    assert reqs[1..] == rest;
    RunKeyUntouched(written, secret, rest, key);
  }

  /** Serving a request a second time changes nothing more. */
  lemma HandleIdempotent(bucket: Bolt.Bucket, secret: string, req: Request)
    ensures Handle(Handle(bucket, secret, req).bucket, secret, req).bucket
         == Handle(bucket, secret, req).bucket
  {
  }

  /** Sending the same request any number of times, at least once, leaves
      the store as sending it once does. */
  lemma {:induction false} RepeatSameAsOnce(bucket: Bolt.Bucket, secret: string, req: Request, n: nat)
    requires n >= 1
    ensures Run(bucket, secret, Repeat(req, n)) == Run(bucket, secret, [req])
    decreases n
  {
    var once := Handle(bucket, secret, req).bucket;
    assert Repeat(req, n)[1..] == Repeat(req, n - 1);
    assert Run(bucket, secret, [req]) == once;
    if n > 1 {
      RepeatSameAsOnce(once, secret, req, n - 1);
      HandleIdempotent(bucket, secret, req);
    }
  }

  /** Requests on different keys commute: the order in which the engine
      serialises them does not matter. */
  lemma DistinctKeysCommute(bucket: Bolt.Bucket, secret: string, r1: Request, r2: Request)
    requires r1.key != r2.key
    ensures Run(bucket, secret, [r1, r2]) == Run(bucket, secret, [r2, r1])
  {
    assert [r1, r2][1..] == [r2];
    assert [r2, r1][1..] == [r1];
    var w1 := MayWrite(r1, secret, r1.key) && r1.key != [] && r1.bodyOk && r1.commits;
    var w2 := MayWrite(r2, secret, r2.key) && r2.key != [] && r2.bodyOk && r2.commits;
    if w1 && w2 {
      Bolt.PutsCommute(bucket, r1.key, r1.body, r2.key, r2.body);
    }
  }
}
