# httpKVstore in Dafny

A model of the request handling of httpKVstore, a small HTTP key-value store
written in Go on top of the Bolt embedded database and the gin router. The
service keeps one Bolt bucket, `"main"`, and answers two routes:
`GET /api/:authkey/:key` (handler `get`) and `PUT /api/:authkey/:key`
(handler `set`). Both first run `auth`, which compares the `:authkey` path
segment with the secret configured at startup.

The model has these modules:

- `GoRuntime` (go_runtime.dfy): Go byte slices, which may be nil, `make` and
  the builtin `copy`. `copy` never grows its destination, which decides what
  `get` does.
- `Bolt` (bolt.dfy): the engine contract the handlers rely on. A bucket is a
  `map<Bytes, Bytes>`. It covers `Get`, `Put`, a write transaction around one
  `Put` that either commits or leaves the bucket as it was, and
  `CreateBucketIfNotExists`.
- `Http` (http.dfy): the status codes used (200, 401, 404) and the response a
  handler leaves on the request context.
- `KVStore` (kvstore.dfy): `auth` as `Auth`; the handlers as specification
  functions `HandleGet` and `HandleSet`; and the class `Server`. `Server`
  holds the secret and the bucket `"main"`. Its constructor is the startup
  bucket creation, and its methods `Get` and `Set` follow the Go handlers step
  by step. Each handler also reports which Bolt transaction it opened (none, a
  `View` or an `Update`). That is how the model states that no storage step
  runs when a guard fails.
- `Sessions` (sessions.dfy): requests served one after another against one
  store. It holds the properties that relate several requests: rejected
  requests and GETs change nothing, a write touches only its own key, the
  last write wins, repeating a request changes nothing more, and writes to
  different keys commute.
- `Findings` (findings.dfy): the `get` defect described below and its
  correction.

Inputs the model cannot see are parameters:
- the secret, which the program reads from the environment;
- whether the request body was read in full (`bodyOk`);
- whether Bolt's write transaction commits (`commits`);
- the database file found at startup (`db`).

The Go handler `get` as written answers 404 to every authorized request with
a non-empty key, whatever the store holds (httpKVstore.go:103-115). The model
reproduces this: `KVStore.HandleGet` and `KVStore.Server.Get` never answer 200.
The handler itself shows what was meant: the `value == nil` test at
httpKVstore.go:112 and `c.Data(http.StatusOK, "application/json", value)` at
httpKVstore.go:117 answer 200 with the stored bytes when the lookup finds them.
A read-after-write round trip therefore holds only for the corrected read in
`Findings`.

## Model

| member | source | states |
|---|---|---|
| `GoRuntime.Copy` | httpKVstore.go:108 | `copy(dst, src)` keeps the destination's length and nil-ness and overwrites its first min(len(dst), len(src)) bytes with those of src; a nil destination receives nothing |
| `Bolt.Get` | httpKVstore.go:107 | the lookup is nil exactly when the key is absent, and otherwise the stored value |
| `Bolt.Put` | httpKVstore.go:134 | afterwards the key holds the value and every other key is as before |
| `Bolt.UpdatePut` | httpKVstore.go:132-136 | the write transaction fails exactly when the engine does not commit; on commit the bucket is the Put, on failure it is unchanged (all-or-nothing) |
| `Bolt.CreateBucketIfNotExists` | httpKVstore.go:36 | the named bucket exists afterwards, keeps its records if it already existed, is empty otherwise, and no other bucket changes |
| `Bolt.CreateBucketIfNotExistsIdempotent` | httpKVstore.go:35-41 | creating the bucket a second time changes nothing |
| `Bolt.PutIdempotent` | httpKVstore.go:134 | putting the same value twice gives the same bucket as once |
| `Bolt.PutsCommute` | httpKVstore.go:134 | puts to different keys commute |
| `KVStore.Auth` | httpKVstore.go:84-92 | the request may go on exactly when the supplied credential equals the secret; otherwise the answer is 401 |
| `KVStore.OpenMainBucket` | httpKVstore.go:35-41 | the bucket "main" served afterwards is the one in the database file, or empty when the file has none |
| `KVStore.HandleGet` | httpKVstore.go:94-118 | wrong credential: 401 with no transaction; empty key: 404 with no transaction; otherwise a read transaction and 404 whatever the bucket holds; the bucket never changes |
| `KVStore.HandleSet` | httpKVstore.go:120-143 | wrong credential: 401 and no transaction; empty key or unreadable body: 404 and no transaction; otherwise one write transaction; 200 exactly when it commits, with the key holding the body and all other keys unchanged; 404 with the bucket unchanged when it fails; 401 exactly for a wrong credential; any answer other than 200 leaves the bucket unchanged |
| `KVStore.Server.constructor` | httpKVstore.go:35-41 | the secret is fixed, and the served bucket is the file's "main" bucket or a new empty one |
| `KVStore.Server.Get` | httpKVstore.go:94-118 | the handler's steps give the outcome of `HandleGet` and leave the store unchanged; 401 exactly for a wrong credential; never 200 |
| `KVStore.Server.Set` | httpKVstore.go:120-143 | the handler's steps give the outcome of `HandleSet` on the old bucket; on 200 the key holds the body; other keys never change; on any other answer the bucket is as before |
| `Sessions.Handle` | httpKVstore.go:47-48 | a routed request changes at most its own key's entry; a GET changes nothing; a wrong credential gives 401, no transaction and no change |
| `Sessions.RunRejectedUnchanged` | httpKVstore.go:84-92 | any sequence of requests with the wrong credential leaves the store unchanged |
| `Sessions.RunGetsUnchanged` | httpKVstore.go:105-110 | any sequence of GETs leaves the store unchanged |
| `Sessions.RunKeyUntouched` | httpKVstore.go:132-136 | a key that no request in a sequence may write keeps its entry (present or absent, and its value) |
| `Sessions.LastWriteWins` | httpKVstore.go:132-142 | after a successful PUT the key holds its body until another authorized PUT of the same key |
| `Sessions.HandleIdempotent` | httpKVstore.go:132-136 | serving the same request a second time changes nothing more |
| `Sessions.RepeatSameAsOnce` | httpKVstore.go:120-143 | sending the same request n >= 1 times leaves the same store as sending it once |
| `Sessions.DistinctKeysCommute` | httpKVstore.go:132-136 | two requests on different keys give the same store in either order |
| `Findings.SetThenGetNotFound` | httpKVstore.go:103-115 | as written, a successful PUT followed by an authorized GET of the same key answers 404, though the bucket holds the body |
| `Findings.ReadValue` | httpKVstore.go:103-110 | the corrected read yields exactly the slice Bolt returned (nil for a missing key) |
| `Findings.HandleGetFixed` | httpKVstore.go:94-118 | corrected `get`: 200 exactly when authorized, the key is non-empty and the key is present, with the stored bytes as body; 401 for a wrong credential; 404 otherwise; the bucket never changes |
| `Findings.SetThenGetFixedRoundTrip` | httpKVstore.go:103-117 | corrected: a successful PUT followed by an authorized GET of the key answers 200 with the body |
| `Findings.EndToEndScenario` | httpKVstore.go:94-143 | secret "s3cr3t" on a fresh file: PUT foo=bar gives 200; GET foo gives 404 as written and 200 "bar" corrected; a wrong credential gives 401; a missing key gives 404 |

## Findings

| source | as written | input that shows it | evidently intended | confidence | as-written member | corrected member |
|---|---|---|---|---|---|---|
| httpKVstore.go:103-115 | `value` starts as a nil slice and `copy(value, v)` copies min(0, len(v)) = 0 bytes, so `value == nil` always holds and every authorized GET of a non-empty key answers 404 | secret "s3cr3t": PUT /api/s3cr3t/foo body "bar" answers 200, then GET /api/s3cr3t/foo answers 404 | answer 200 with the stored bytes when the key is present (for example `value = make([]byte, len(v))` before the copy, only when `v != nil`) | high, not executed | `Findings.SetThenGetNotFound` | `Findings.SetThenGetFixedRoundTrip` |

## Left out

- Server startup, routing, CORS and the listener (httpKVstore.go:23-24, 44-61): gin and net/http plumbing. The router's matching of path segments is not modelled. Both handlers take the `:authkey` and `:key` segments as given, including an empty key.
- Signal handling and the 5-second graceful shutdown (httpKVstore.go:63-81): OS signals, goroutines and wall-clock timeouts.
- Concurrency and transaction isolation: requests are modelled as served one after another (`Sessions.Run`). That is the order Bolt's single writer imposes on writes.
- Opening the database file with a one-second timeout, and durability on disk (httpKVstore.go:28-33). The file found at startup is the constructor parameter `db`. A failure to open it is fatal in the program and is not modelled.
- The error returned by the startup bucket creation is ignored by the program (httpKVstore.go:35-41). The model assumes the creation succeeds.
- Reading `AUTHKEY` from the environment (httpKVstore.go:25): the secret is a constructor parameter.
- Logging (httpKVstore.go:26, 89, 130). It has no effect on responses or the store. The program logs the secret and every written value.
- The global `db` handle is shadowed in `main` (httpKVstore.go:20, 29), so the handlers see a nil handle at run time. The model passes the bucket opened at startup to the handlers instead.
- Reading the request body (httpKVstore.go:125) is the flag `bodyOk`. The program reads the body before it tests the key. That order has no effect on the status or the store.
- Bolt's own reasons for a failed `Put` or commit (oversized key or value, disk errors) are folded into the flag `commits`.
- The `Content-Type: application/json` header of a 200 answer to GET (httpKVstore.go:117) is not part of `Http.Response`. Only the status and body are modelled.
