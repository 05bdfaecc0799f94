/*
 * The admission cache of the DERP client verifier: a lazily refreshed
 * allow-list of node public keys. Each admission query may first refresh the
 * snapshot (at most once per interval, claiming the refresh slot before the
 * fetch) and then answers by a linear membership scan of the current snapshot.
 */
module Verifier {

  // ---------------------------------------------------------------------------
  // 32-bit unsigned arithmetic, as Go's uint32
  // ---------------------------------------------------------------------------

  const TwoTo32: int := 0x1_0000_0000

  newtype uint32 = x: int | 0 <= x < TwoTo32

  /** Go's `a + b` on uint32: the sum taken modulo 2^32. */
  function AddU32(a: uint32, b: uint32): (r: uint32)
    ensures a as int + b as int < TwoTo32 ==> r as int == a as int + b as int
    ensures a as int + b as int >= TwoTo32 ==> r as int == a as int + b as int - TwoTo32
  {
    ((a as int + b as int) % TwoTo32) as uint32
  }

  /** The refresh interval in seconds: one minute. */
  const Interval: uint32 := 60

  /** A refresh is due when `now > lastUpdate + interval`, the sum wrapping. */
  predicate RefreshDue(now: uint32, lastUpdate: uint32) {
    now > AddU32(lastUpdate, Interval)
  }

  /** Away from the wrap-around, a refresh is due exactly when more than one
      interval has passed since the last attempt. */
  lemma RefreshDueWithoutWrap(now: uint32, lastUpdate: uint32)
    requires lastUpdate as int + Interval as int < TwoTo32
    ensures RefreshDue(now, lastUpdate) <==> now as int - lastUpdate as int > Interval as int
  {
  }

  /** Near the top of the 32-bit range the sum wraps to a small value, so every
      call at or after the last attempt (until `now` itself wraps) refreshes:
      the throttle does not hold there. */
  lemma RefreshDueNearWrap(now: uint32, lastUpdate: uint32)
    requires lastUpdate as int + Interval as int >= TwoTo32
    requires now >= lastUpdate
    ensures RefreshDue(now, lastUpdate)
  {
  }

  // ---------------------------------------------------------------------------
  // The fetcher and the cache state, as values
  // ---------------------------------------------------------------------------

  /** What one call of the fetcher returns: a complete list, or an error. */
  datatype FetchResult<Node> = Fetched(nodes: seq<Node>) | FetchError

  /** The state the searcher captures: the snapshot and the last attempt. */
  datatype CacheState<Node> = CacheState(nodes: seq<Node>, lastUpdate: uint32)

  /** The state at process start: no nodes, timestamp zero. */
  function Initial<Node>(): CacheState<Node> {
    CacheState([], 0)
  }

  /** The refresh step of one query. The fetch result is only looked at when a
      refresh is due; the timestamp is claimed whatever the fetch returns. */
  function Step<Node>(s: CacheState<Node>, now: uint32, fetch: FetchResult<Node>): CacheState<Node> {
    if !RefreshDue(now, s.lastUpdate) then s
    else match fetch
      case FetchError => CacheState(s.nodes, now)
      case Fetched(list) => CacheState(list, now)
  }

  /** One admission query: the node asked about, the clock reading, and what
      the fetcher would return if it were consulted. */
  datatype Call<Node> = Call(node: Node, now: uint32, fetch: FetchResult<Node>)

  /** The answer to one query: membership in the snapshot after the refresh step. */
  predicate Answer<Node(==)>(s: CacheState<Node>, c: Call<Node>) {
    c.node in Step(s, c.now, c.fetch).nodes
  }

  /** The state after a sequence of queries. */
  function Run<Node>(s: CacheState<Node>, calls: seq<Call<Node>>): CacheState<Node>
    decreases |calls|
  {
    if calls == [] then s
    else Run(Step(s, calls[0].now, calls[0].fetch), calls[1..])
  }

  /** The answers given to a sequence of queries. */
  function Answers<Node(==)>(s: CacheState<Node>, calls: seq<Call<Node>>): seq<bool>
    decreases |calls|
  {
    if calls == [] then []
    else [Answer(s, calls[0])] + Answers(Step(s, calls[0].now, calls[0].fetch), calls[1..])
  }

  /** How many times the fetcher is consulted during a sequence of queries. */
  function FetchCount<Node>(s: CacheState<Node>, calls: seq<Call<Node>>): nat
    decreases |calls|
  {
    if calls == [] then 0
    else (if RefreshDue(calls[0].now, s.lastUpdate) then 1 else 0)
         + FetchCount(Step(s, calls[0].now, calls[0].fetch), calls[1..])
  }

  // ---------------------------------------------------------------------------
  // Properties of sequences of queries
  // ---------------------------------------------------------------------------

  /** Throttling: while no wrap-around happens, queries whose clock reads at most
      one interval after the last attempt never consult the fetcher, change
      nothing, and are all answered from the current snapshot. */
  lemma {:induction false} QuietWithinInterval<Node>(s: CacheState<Node>, calls: seq<Call<Node>>)
    requires s.lastUpdate as int + Interval as int < TwoTo32
    requires forall i :: 0 <= i < |calls| ==> calls[i].now as int <= s.lastUpdate as int + Interval as int
    ensures Run(s, calls) == s
    ensures FetchCount(s, calls) == 0
    ensures |Answers(s, calls)| == |calls|
    ensures forall i :: 0 <= i < |calls| ==> Answers(s, calls)[i] == (calls[i].node in s.nodes)
    decreases |calls|
  {
    if calls != [] {
      RefreshDueWithoutWrap(calls[0].now, s.lastUpdate);
      assert Step(s, calls[0].now, calls[0].fetch) == s;
      QuietWithinInterval(s, calls[1..]);
      forall i | 0 <= i < |calls|
        ensures Answers(s, calls)[i] == (calls[i].node in s.nodes)
      {
        if i > 0 {
          assert calls[1..][i - 1] == calls[i];
        }
      }
    }
  }

  /** Throttling across one window: however many queries arrive with clock
      readings inside one interval [t, t + 60], the fetcher is consulted at most
      once among them (no clock reading close enough to 2^32 to wrap). */
  lemma {:induction false} AtMostOneFetchPerInterval<Node>(s: CacheState<Node>, calls: seq<Call<Node>>, t: uint32)
    requires forall i :: 0 <= i < |calls| ==> t <= calls[i].now
    requires forall i :: 0 <= i < |calls| ==> calls[i].now as int <= t as int + Interval as int
    requires forall i :: 0 <= i < |calls| ==> calls[i].now as int + Interval as int < TwoTo32
    ensures FetchCount(s, calls) <= 1
    decreases |calls|
  {
    if calls != [] {
      var s' := Step(s, calls[0].now, calls[0].fetch);
      if RefreshDue(calls[0].now, s.lastUpdate) {
        assert s'.lastUpdate == calls[0].now;
        QuietWithinInterval(s', calls[1..]);
      } else {
        assert s' == s;
        AtMostOneFetchPerInterval(s, calls[1..], t);
      }
    }
  }

  /** No query of the sequence consults the fetcher and gets a list back:
      every query that is due for a refresh meets a failing fetch. Queries
      that are not due may carry any fetch result, since it is never looked at. */
  predicate NoConsultedSuccess<Node>(s: CacheState<Node>, calls: seq<Call<Node>>)
    decreases |calls|
  {
    calls == []
    || ((RefreshDue(calls[0].now, s.lastUpdate) ==> calls[0].fetch.FetchError?)
        && NoConsultedSuccess(Step(s, calls[0].now, calls[0].fetch), calls[1..]))
  }

  /** Query `i` of the sequence consults the fetcher: it is due for a refresh
      in the state the earlier queries left behind. */
  predicate ConsultedAt<Node>(s: CacheState<Node>, calls: seq<Call<Node>>, i: nat)
    requires i < |calls|
  {
    RefreshDue(calls[i].now, Run(s, calls[..i]).lastUpdate)
  }

  /** Running a non-empty prefix is one step followed by the rest of the prefix. */
  lemma RunPrefix<Node>(s: CacheState<Node>, calls: seq<Call<Node>>, k: nat)
    requires 0 < k <= |calls|
    ensures Run(s, calls[..k]) == Run(Step(s, calls[0].now, calls[0].fetch), calls[1..][..k - 1])
  {
    assert calls[..k][0] == calls[0];
    assert calls[..k][1..] == calls[1..][..k - 1];
  }

  /** Fail-safe: as long as no consulted fetch succeeds, the snapshot survives
      any number of queries unchanged, and every answer is membership in it. */
  lemma {:induction false} FailedFetchesKeepSnapshot<Node>(s: CacheState<Node>, calls: seq<Call<Node>>)
    requires NoConsultedSuccess(s, calls)
    ensures Run(s, calls).nodes == s.nodes
    ensures |Answers(s, calls)| == |calls|
    ensures forall i :: 0 <= i < |calls| ==> Answers(s, calls)[i] == (calls[i].node in s.nodes)
    decreases |calls|
  {
    if calls != [] {
      var s' := Step(s, calls[0].now, calls[0].fetch);
      assert s'.nodes == s.nodes;
      FailedFetchesKeepSnapshot(s', calls[1..]);
      forall i | 0 <= i < |calls|
        ensures Answers(s, calls)[i] == (calls[i].node in s.nodes)
      {
        if i > 0 {
          assert calls[1..][i - 1] == calls[i];
        }
      }
    }
  }

  /** Empty-state safety: from an empty snapshot (as at process start), every
      node is refused until a consulted fetch succeeds. */
  lemma EmptyUntilFirstSuccess<Node>(s: CacheState<Node>, calls: seq<Call<Node>>)
    requires s.nodes == []
    requires NoConsultedSuccess(s, calls)
    ensures |Answers(s, calls)| == |calls|
    ensures forall i :: 0 <= i < |calls| ==> !Answers(s, calls)[i]
  {
    FailedFetchesKeepSnapshot(s, calls);
  }

  /** Wholesale replacement: once some consulted fetch has succeeded, the
      snapshot is exactly the list returned by the last such fetch, never a
      merge with earlier lists. (Without one, FailedFetchesKeepSnapshot says
      the snapshot is the one before the queries.) */
  lemma {:induction false} SnapshotIsLastSuccessfulFetch<Node>(s: CacheState<Node>, calls: seq<Call<Node>>)
    requires !NoConsultedSuccess(s, calls)
    ensures exists i: nat :: i < |calls| && ConsultedAt(s, calls, i)
              && calls[i].fetch == Fetched(Run(s, calls).nodes)
              && NoConsultedSuccess(Run(s, calls[..i + 1]), calls[i + 1..])
    decreases |calls|
  {
    var s' := Step(s, calls[0].now, calls[0].fetch);
    var rest := calls[1..];
    assert Run(s, calls) == Run(s', rest);
    if NoConsultedSuccess(s', rest) {
      FailedFetchesKeepSnapshot(s', rest);
      assert RefreshDue(calls[0].now, s.lastUpdate) && calls[0].fetch.Fetched?;
      assert calls[..0] == [];
      RunPrefix(s, calls, 1);
      assert ConsultedAt(s, calls, 0);
    } else {
      SnapshotIsLastSuccessfulFetch(s', rest);
      var j: nat :| j < |rest| && ConsultedAt(s', rest, j)
                    && rest[j].fetch == Fetched(Run(s', rest).nodes)
                    && NoConsultedSuccess(Run(s', rest[..j + 1]), rest[j + 1..]);
      RunPrefix(s, calls, j + 1);
      RunPrefix(s, calls, j + 2);
      assert calls[j + 1] == rest[j];
      assert calls[j + 2..] == rest[j + 1..];
      assert ConsultedAt(s, calls, j + 1);
    }
  }

  // ---------------------------------------------------------------------------
  // The searcher and its captured state
  // ---------------------------------------------------------------------------

  class AdmissionCache<Node(==)> {
    /** The current allow-list snapshot. */
    var nodes: seq<Node>
    /** The time of the last refresh attempt, in Unix seconds truncated to 32 bits. */
    var lastUpdate: uint32

    /** The captured state as a value. */
    function State(): CacheState<Node>
      reads this
    {
      CacheState(nodes, lastUpdate)
    }

    /** Start-up: no nodes, timestamp zero. */
    constructor ()
      ensures State() == Initial()
    {
      nodes := [];
      lastUpdate := 0;
    }

    /** One admission query at clock reading `now`; `fetch` is what the fetcher
        returns, consulted only when a refresh is due. */
    method Search(n: Node, now: uint32, fetch: FetchResult<Node>) returns (b: bool)
      modifies this
      ensures State() == Step(old(State()), now, fetch)
      ensures !RefreshDue(now, old(lastUpdate)) ==> nodes == old(nodes) && lastUpdate == old(lastUpdate)
      ensures RefreshDue(now, old(lastUpdate)) ==> lastUpdate == now
      ensures fetch.FetchError? ==> nodes == old(nodes)
      ensures RefreshDue(now, old(lastUpdate)) && fetch.Fetched? ==> nodes == fetch.nodes
      ensures b <==> n in nodes
      ensures b == Answer(old(State()), Call(n, now, fetch))
    {
      if now > AddU32(lastUpdate, Interval) {
        lastUpdate := now;
        match fetch {
          case FetchError =>
          case Fetched(list) =>
            nodes := list;
        }
      }
      b := Lookup(n);
    }

    /** The linear scan of the current snapshot. */
    method Lookup(n: Node) returns (b: bool)
      ensures b <==> n in nodes
    {
      for i := 0 to |nodes|
        invariant forall j :: 0 <= j < i ==> nodes[j] != n
      {
        if n == nodes[i] {
          return true;
        }
      }
      return false;
    }
  }

  /** A client run: a successful fetch, a throttled query, then a failed
      refresh that keeps the old snapshot. */
  method RefreshScenario<Node(==)>(k1: Node, k2: Node, k3: Node)
    requires k3 != k1 && k3 != k2
  {
    var cache := new AdmissionCache<Node>();
    var b := cache.Search(k1, 1000, Fetched([k1, k2]));
    assert b;
    b := cache.Search(k3, 1000, FetchError);
    assert !b;
    b := cache.Search(k1, 1030, Fetched([]));
    assert b && cache.lastUpdate == 1000;
    b := cache.Search(k1, 1061, FetchError);
    assert b && cache.lastUpdate == 1061 && cache.nodes == [k1, k2];
    b := cache.Search(k2, 1121, Fetched([k3]));
    assert b && cache.lastUpdate == 1061;
  }
}
