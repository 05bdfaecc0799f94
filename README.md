# Admission cache of the DERP client verifier

The DERP client verifier is a small HTTP service that a Tailscale DERP relay
asks whether a node public key may use the relay. Its core is the `searcher`
closure in `main.go`. The closure keeps two pieces of state: `nodes`, the
current allow-list snapshot, and `lastUpdate`, the 32-bit Unix time of the
last refresh attempt. On each query it does two things:

1. It refreshes the snapshot when `now > lastUpdate + interval`. The sum is
   taken on `uint32` and wraps. It first stores `now` into `lastUpdate` (the
   claim), then calls the fetcher. On an error it keeps the old snapshot. On
   success it replaces the snapshot with the fetched list.
2. It scans the snapshot linearly for the queried key.

This project models that core in one Dafny module, `Verifier` (`verifier.dfy`):

- `uint32` is a newtype over `int`, and `AddU32` is Go's wrapping addition.
- `Interval` is 60, one minute in seconds.
- `RefreshDue` is the refresh test of the closure.
- The fetcher is an input `FetchResult<Node> = Fetched(nodes) | FetchError`.
  It is looked at only when a refresh is due.
- `AdmissionCache<Node>` is a class with the captured state as its fields
  `nodes` and `lastUpdate`. `Search` is the closure. `Lookup` is its scanning
  loop.
- Node keys are a type parameter with equality. `n.Compare(x) == 0` is `n == x`.
- The same step is also a function on values, `Step`, over a `CacheState`.
  `Run`, `Answers` and `FetchCount` fold `Step` over a sequence of queries
  (`Call`s). The lemmas about throttling, fail-safe retention and empty-state
  safety are stated over these folds. `Search` is proved equal to `Step`.

Two consequences of the code are worth stating:

- The refresh test is strict and wraps: a query refreshes only when
  `now > lastUpdate + 60` on `uint32`, so 61 seconds must pass since the last
  attempt, and near 2^32 the sum wraps and the throttle stops holding.
- `lastUpdate` starts at 0, so clock readings 0..60 never fetch. The client
  method `RefreshScenario` therefore starts at 1000.

## Model

| member | source | states |
|---|---|---|
| Verifier.AddU32 | main.go:49 | `lastUpdate + uint32(interval.Seconds())` is the sum modulo 2^32: the plain sum below 2^32, the sum minus 2^32 above it |
| Verifier.RefreshDueWithoutWrap | main.go:49 | when `lastUpdate + 60` does not wrap, a refresh is due exactly when more than 60 seconds have passed since the last attempt |
| Verifier.RefreshDueNearWrap | main.go:49 | when `lastUpdate + 60` wraps past 2^32, every query at or after `lastUpdate` is due for a refresh, so the throttle does not hold near the top of the 32-bit range |
| Verifier.RefreshDue | main.go:49 | the refresh test `now > lastUpdate + uint32(interval.Seconds())` with the wrapping sum; it has no contract of its own, and RefreshDueWithoutWrap and RefreshDueNearWrap pin down what it means on each side of the wrap |
| Verifier.Step | main.go:49-61 | the refresh step of one query on the captured state as a value; it has no contract of its own, and Search's `ensures` equate the class's new state with it and spell out each of its cases |
| Verifier.AdmissionCache.constructor | main.go:43-44 | the cache starts with an empty snapshot and `lastUpdate` 0 |
| Verifier.AdmissionCache.Search | main.go:46-71 | one query. When not due, nothing changes. When due, `lastUpdate` becomes `now` whatever the fetch returns. An error keeps the old snapshot. A success replaces it with exactly the fetched list. The answer is membership in the snapshot after the refresh step. The new state equals `Step` of the old one |
| Verifier.AdmissionCache.Lookup | main.go:63-70 | the scan returns true iff the queried key is in the current snapshot (false on an empty one) |
| Verifier.QuietWithinInterval | main.go:49-50 | with no wrap-around, any sequence of queries whose clock reads at most 60 s after the last attempt consults the fetcher zero times, leaves the state unchanged, and answers each query from the current snapshot |
| Verifier.AtMostOneFetchPerInterval | main.go:49-52 | any sequence of queries whose clock readings all lie in one window `[t, t + 60]` consults the fetcher at most once, away from wrap-around, because the claim at main.go:50 precedes the fetch and the test is strict |
| Verifier.FailedFetchesKeepSnapshot | main.go:49-54 | as long as no query that is due for a refresh gets a list back from the fetcher (fetch results of queries that are not due are never looked at), the snapshot after any number of queries is the one before them, and every answer is membership in it |
| Verifier.EmptyUntilFirstSuccess | main.go:43-57 | from an empty snapshot, as at start-up, every query is refused until a consulted fetch succeeds |
| Verifier.SnapshotIsLastSuccessfulFetch | main.go:49-57 | once some consulted fetch has succeeded, the snapshot is exactly the list returned by the last consulted successful fetch (a query that was due, with no consulted success after it), never a merge of lists and never a list the fetcher was not asked for |

## Left out

- Locking and atomics (`sync.RWMutex`, `atomic.LoadUint32`/`StoreUint32`, main.go:42, 49-50, 56-58, 63-64): `Search` is one sequential, atomic step. The race in which two concurrent callers both pass the test before either stores the claim is not modelled. Neither is the property that readers never see a half-installed snapshot; in Go this comes from replacing a slice header under the lock.
- The clock (`time.Now().Unix()` truncated to `uint32`, main.go:47): `now` is a 32-bit parameter of `Search`.
- `interval.Seconds()` is a float64 (main.go:49): the interval is the integer constant 60 (`time.Minute`, main.go:35).
- The file-backed fetcher and `readJSONFile` (main.go:36-40, 112-119): the fetcher's outcome is the `FetchResult` input, an error or a complete list.
- `key.NodePublic` and its `Compare` (main.go:66): keys are an opaque type with equality.
- The HTTP handler (main.go:73-103), flag parsing, `http.ListenAndServe` and `os.Exit` (main.go:27-29, 105-109): transport and process glue with no cache logic.
- The log lines (main.go:51, 54, 59, 92): they have no effect on the state or the answer.
