/** The contract of the embedded Bolt engine as the handlers use it: a
    database of named buckets, each a map from byte keys to byte values,
    read inside `db.View` and written inside `db.Update`. */
module Bolt {
  import opened GoRuntime

  type Bucket = map<Bytes, Bytes>

  /** The database file: bucket name to bucket. */
  type DB = map<Bytes, Bucket>

  /** Which transaction a handler opened, if any. */
  datatype TxKind = NoTx | ViewTx | UpdateTx

  /** Result of `db.Update`: whether it returned an error, and the bucket as
      later transactions see it. */
  datatype TxResult = TxResult(err: bool, bucket: Bucket)

  /** `b.Get(key)`: nil when the key is absent, otherwise the stored value
      (a non-nil slice, possibly of length 0). */
  function Get(b: Bucket, key: Bytes): (v: Slice)
    ensures v.Nil? <==> key !in b
    ensures key in b ==> v == Slice(b[key])
  {
    if key in b then Slice(b[key]) else Nil
  }

  /** `b.Put(key, value)`: creates or overwrites one key. */
  function Put(b: Bucket, key: Bytes, value: Bytes): (r: Bucket)
    ensures key in r && r[key] == value
    ensures r - {key} == b - {key}
  {
    b[key := value]
  }

  /** `db.Update` around a single `Put`. `commits` is the engine's verdict on
      the transaction (disk and resource failures are not modelled further):
      the write is all-or-nothing. */
  function UpdatePut(b: Bucket, key: Bytes, value: Bytes, commits: bool): (r: TxResult)
    ensures r.err <==> !commits
    ensures !r.err ==> r.bucket == Put(b, key, value)
    ensures r.err ==> r.bucket == b
  {
    if commits then TxResult(false, Put(b, key, value)) else TxResult(true, b)
  }

  /** `tx.CreateBucketIfNotExists(name)`: an existing bucket is kept as it is,
      a missing one is created empty, no other bucket is touched. */
  function CreateBucketIfNotExists(db: DB, name: Bytes): (r: DB)
    ensures name in r
    ensures r - {name} == db - {name}
    ensures r[name] == if name in db then db[name] else map[]
  {
    if name in db then db else db[name := map[]]
  }

  /** Creating a bucket that already exists changes nothing. */
  lemma CreateBucketIfNotExistsIdempotent(db: DB, name: Bytes)
    ensures CreateBucketIfNotExists(CreateBucketIfNotExists(db, name), name)
         == CreateBucketIfNotExists(db, name)
  {
  }

  /** Writing the value a key already holds changes nothing. */
  lemma PutIdempotent(b: Bucket, key: Bytes, value: Bytes)
    ensures Put(Put(b, key, value), key, value) == Put(b, key, value)
  {
  }

  /** Writes to different keys commute. */
  lemma PutsCommute(b: Bucket, k1: Bytes, v1: Bytes, k2: Bytes, v2: Bytes)
    requires k1 != k2
    ensures Put(Put(b, k1, v1), k2, v2) == Put(Put(b, k2, v2), k1, v1)
  {
  }
}
