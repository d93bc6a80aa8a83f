/** The lookup in `get` copies the stored value into a nil slice. `copy`
    never grows its destination, so the slice stays nil and the handler
    answers 404 even for a key the store holds. This module exhibits that
    and gives the read the handler evidently meant, with its round trip. */
module Findings {
  import opened GoRuntime
  import opened Http
  import Bolt
  import opened KVStore

  /** As written: a PUT that succeeds and an authorized GET of the same key
      right after it answers 404, although the bucket holds the body. */
  lemma SetThenGetNotFound(bucket: Bolt.Bucket, secret: string, key: Bytes, body: Bytes)
    requires key != []
    ensures var w := HandleSet(bucket, secret, secret, key, body, true, true);
      && w.resp == Ok([])
      && Bolt.Get(w.bucket, key) == Slice(body)
      && HandleGet(w.bucket, secret, secret, key).resp == NotFound
  {
  }

  /** The read the handler evidently meant: a missing key leaves `value`
      nil; a present one is copied into a slice made to its length. The
      result is the slice the store returned. */
  function ReadValue(v: Slice): (value: Slice)
    ensures value == v
  {
    if v == Nil then Nil
    else Copy(Make(Len(v)), v)
  }

  /** `get` with the read corrected: 200 with the stored bytes exactly when
      the request is authorized and the key is present; otherwise 401 or
      404 as before. The bucket is never changed. */
  function HandleGetFixed(bucket: Bolt.Bucket, secret: string, authkey: string, key: Bytes): (r: Outcome)
    ensures r.bucket == bucket
    ensures authkey != secret ==> r.resp == Unauthorized && r.tx == Bolt.NoTx
    ensures authkey == secret && key == [] ==> r.resp == NotFound && r.tx == Bolt.NoTx
    ensures authkey == secret && key != [] ==> r.tx == Bolt.ViewTx
    ensures r.resp.status == StatusOK <==> authkey == secret && key != [] && key in bucket
    ensures r.resp.status == StatusOK ==> r.resp.body == bucket[key]
    ensures authkey == secret && key !in bucket ==> r.resp == NotFound
  {
    match Auth(secret, authkey)
    case Some(rejection) => Outcome(rejection, bucket, Bolt.NoTx)
    case None =>
      if key == [] then Outcome(NotFound, bucket, Bolt.NoTx)
      else
        var value := ReadValue(Bolt.Get(bucket, key));
        match value
        case Nil => Outcome(NotFound, bucket, Bolt.ViewTx)
        case Slice(bytes) => Outcome(Ok(bytes), bucket, Bolt.ViewTx)
  }

  /** Corrected: a successful PUT followed by an authorized GET of the same
      key answers 200 with the body that was stored. */
  lemma SetThenGetFixedRoundTrip(bucket: Bolt.Bucket, secret: string, key: Bytes, body: Bytes)
    requires key != []
    ensures var w := HandleSet(bucket, secret, secret, key, body, true, true);
      HandleGetFixed(w.bucket, secret, secret, key).resp == Ok(body)
  {
  }

  /** The service started with secret "s3cr3t" on a fresh database file:
      PUT /api/s3cr3t/foo with body "bar" answers 200; GET /api/s3cr3t/foo
      answers 404 as written and 200 "bar" once corrected; GET
      /api/wrong/foo answers 401; GET /api/s3cr3t/missing answers 404. */
  lemma EndToEndScenario()
    ensures
      var secret := "s3cr3t";
      var foo: Bytes := [0x66, 0x6f, 0x6f];
      var bar: Bytes := [0x62, 0x61, 0x72];
      var missing: Bytes := [0x6d, 0x69, 0x73, 0x73, 0x69, 0x6e, 0x67];
      var put := HandleSet(OpenMainBucket(map[]), secret, secret, foo, bar, true, true);
      && put.resp.status == StatusOK
      && HandleGet(put.bucket, secret, secret, foo).resp.status == StatusNotFound
      && HandleGetFixed(put.bucket, secret, secret, foo).resp == Ok(bar)
      && HandleGet(put.bucket, secret, "wrong", foo).resp.status == StatusUnauthorized
      && HandleGetFixed(put.bucket, secret, secret, missing).resp.status == StatusNotFound
  {
  }
}
