/**
 The cache engine's statistics: a monitor that counts per interval and tracks open
 requests, and a logger that drains it and adds the snapshots to ever-growing counters.
 */
module StatsMonitor {
  // ------------------------------------------------------------------ the counters

  datatype Kind =
    | RetrieveRequests | StoreRequests | RequestedTokens | HitTokens
    | ReadRequests | ReadBytes | WriteRequests | WriteBytes

  datatype Counters = Counters(
    retrieveRequests: int, storeRequests: int, requestedTokens: int, hitTokens: int,
    readRequests: int, readBytes: int, writeRequests: int, writeBytes: int)
  {
    function Get(k: Kind): int {
      match k
      case RetrieveRequests => retrieveRequests
      case StoreRequests => storeRequests
      case RequestedTokens => requestedTokens
      case HitTokens => hitTokens
      case ReadRequests => readRequests
      case ReadBytes => readBytes
      case WriteRequests => writeRequests
      case WriteBytes => writeBytes
    }

    function Inc(k: Kind, x: int): (r: Counters)
      ensures forall j :: r.Get(j) == Get(j) + if j == k then x else 0
    {
      match k
      case RetrieveRequests => this.(retrieveRequests := retrieveRequests + x)
      case StoreRequests => this.(storeRequests := storeRequests + x)
      case RequestedTokens => this.(requestedTokens := requestedTokens + x)
      case HitTokens => this.(hitTokens := hitTokens + x)
      case ReadRequests => this.(readRequests := readRequests + x)
      case ReadBytes => this.(readBytes := readBytes + x)
      case WriteRequests => this.(writeRequests := writeRequests + x)
      case WriteBytes => this.(writeBytes := writeBytes + x)
    }
  }

  const Zero := Counters(0, 0, 0, 0, 0, 0, 0, 0)

  // ------------------------------------------------------------------ the requests

  /** An end time of zero marks a request that has not finished. */
  datatype RequestStats =
    | RetrieveStats(numTokens: int, localHitTokens: int, remoteHitTokens: int, startTime: real, endTime: real)
    | StoreStats(numTokens: int, startTime: real, endTime: real)
  {
    predicate Finished() {
      endTime != 0.0
    }

    function Duration(): real {
      if endTime == 0.0 then 0.0 else endTime - startTime
    }
  }

  type Requests = map<nat, RequestStats>

  datatype Stats = Stats(counters: Counters, timeToRetrieve: seq<real>, timeToStore: seq<real>)

  datatype Monitor = Monitor(
    interval: Counters,
    retrieve: Requests, nextRetrieve: nat,
    store: Requests, nextStore: nat)

  datatype Call =
    | RetrieveRequest(numTokens: int, now: real)
    | RetrieveFinished(id: nat, retrievedTokens: int, now: real)
    | StoreRequest(numTokens: int, now: real)
    | StoreFinished(id: nat, numTokens: int, now: real)
    | RemoteRead(bytes: int)
    | RemoteWrite(bytes: int)

  /** Finishing a request that is not tracked fails an assertion. */
  predicate Accepted(m: Monitor, c: Call) {
    match c
    case RetrieveFinished(id, _, _) => id in m.retrieve
    case StoreFinished(id, _, _) => id in m.store
    case _ => true
  }

  /** What an accepted call adds to each counter. */
  function Contribution(c: Call, k: Kind): int {
    match (c, k)
    case (RetrieveRequest(_, _), RetrieveRequests) => 1
    case (RetrieveRequest(n, _), RequestedTokens) => n
    case (RetrieveFinished(_, n, _), HitTokens) => n
    case (StoreRequest(_, _), StoreRequests) => 1
    case (RemoteRead(_), ReadRequests) => 1
    case (RemoteRead(n), ReadBytes) => n
    case (RemoteWrite(_), WriteRequests) => 1
    case (RemoteWrite(n), WriteBytes) => n
    case _ => 0
  }

  function Counted(interval: Counters, c: Call): (r: Counters)
    ensures forall k :: r.Get(k) == interval.Get(k) + Contribution(c, k)
  {
    match c
    case RetrieveRequest(n, _) => interval.Inc(RequestedTokens, n).Inc(RetrieveRequests, 1)
    case RetrieveFinished(_, n, _) => interval.Inc(HitTokens, n)
    case StoreRequest(_, _) => interval.Inc(StoreRequests, 1)
    case StoreFinished(_, _, _) => interval
    case RemoteRead(n) => interval.Inc(ReadRequests, 1).Inc(ReadBytes, n)
    case RemoteWrite(n) => interval.Inc(WriteRequests, 1).Inc(WriteBytes, n)
  }

  function After(m: Monitor, c: Call): Monitor {
    if !Accepted(m, c) then m
    else
      var counted := m.(interval := Counted(m.interval, c));
      match c
      case RetrieveRequest(n, now) =>
        counted.(retrieve := m.retrieve[m.nextRetrieve := RetrieveStats(n, 0, 0, now, 0.0)],
                 nextRetrieve := m.nextRetrieve + 1)
      case RetrieveFinished(id, n, now) =>
        counted.(retrieve := m.retrieve[id := WithHits(m.retrieve[id], n).(endTime := now)])
      case StoreRequest(n, now) =>
        counted.(store := m.store[m.nextStore := StoreStats(n, now, 0.0)], nextStore := m.nextStore + 1)
      case StoreFinished(id, n, now) =>
        counted.(store := m.store[id := m.store[id].(endTime := now,
                                                     numTokens := if n >= 0 then n else m.store[id].numTokens)])
      case _ => counted
  }

  function WithHits(r: RequestStats, n: int): RequestStats {
    if r.RetrieveStats? then r.(localHitTokens := n) else r
  }

  function Unfinished(requests: Requests): Requests {
    map id | id in requests && !requests[id].Finished() :: requests[id]
  }

  /** The non-zero durations of the tracked requests with ids below n, in id order. */
  function Durations(requests: Requests, n: nat): seq<real> {
    if n == 0 then []
    else
      Durations(requests, n - 1) +
      (if n - 1 in requests && requests[n - 1].Duration() != 0.0 then [requests[n - 1].Duration()] else [])
  }

  function Snapshot(m: Monitor): Stats {
    Stats(m.interval, Durations(m.retrieve, m.nextRetrieve), Durations(m.store, m.nextStore))
  }

  function Cleared(m: Monitor): Monitor {
    m.(interval := Zero, retrieve := Unfinished(m.retrieve), store := Unfinished(m.store))
  }

  /** Prometheus counters refuse to go down: negative data is dropped. */
  function Positive(x: int): nat {
    if x < 0 then 0 else x
  }

  // ------------------------------------------------------------------- the classes

  class InfiniKVStatsMonitor {
    var intervalRetrieveRequests: int
    var intervalStoreRequests: int
    var intervalRequestedTokens: int
    var intervalHitTokens: int
    var intervalRemoteReadRequests: int
    var intervalRemoteReadBytes: int
    var intervalRemoteWriteRequests: int
    var intervalRemoteWriteBytes: int
    var retrieveRequests: Requests
    var storeRequests: Requests
    var retrieveRequestId: nat
    var storeRequestId: nat

    function State(): Monitor
      reads this
    {
      Monitor(Counters(intervalRetrieveRequests, intervalStoreRequests, intervalRequestedTokens, intervalHitTokens,
                       intervalRemoteReadRequests, intervalRemoteReadBytes,
                       intervalRemoteWriteRequests, intervalRemoteWriteBytes),
              retrieveRequests, retrieveRequestId, storeRequests, storeRequestId)
    }

    constructor ()
      ensures State() == Monitor(Zero, map[], 0, map[], 0)
    {
      intervalRetrieveRequests, intervalStoreRequests := 0, 0;
      intervalRequestedTokens, intervalHitTokens := 0, 0;
      intervalRemoteReadRequests, intervalRemoteReadBytes := 0, 0;
      intervalRemoteWriteRequests, intervalRemoteWriteBytes := 0, 0;
      retrieveRequests, storeRequests := map[], map[];
      retrieveRequestId, storeRequestId := 0, 0;
    }

    method OnRetrieveRequest(numTokens: int, currTime: real) returns (id: nat)
      modifies this
      ensures id == old(retrieveRequestId)
      ensures State() == After(old(State()), RetrieveRequest(numTokens, currTime))
      ensures intervalRetrieveRequests == old(intervalRetrieveRequests) + 1
      ensures intervalRequestedTokens == old(intervalRequestedTokens) + numTokens
      ensures retrieveRequests == old(retrieveRequests)[id := RetrieveStats(numTokens, 0, 0, currTime, 0.0)]
    {
      var retrieveStats := RetrieveStats(numTokens, 0, 0, currTime, 0.0);
      intervalRequestedTokens := intervalRequestedTokens + numTokens;
      intervalRetrieveRequests := intervalRetrieveRequests + 1;
      retrieveRequests := retrieveRequests[retrieveRequestId := retrieveStats];
      retrieveRequestId := retrieveRequestId + 1;
      return retrieveRequestId - 1;
    }

    /** false is an assertion failure. */
    method OnRetrieveFinished(requestId: nat, retrievedTokens: int, currTime: real) returns (ok: bool)
      modifies this
      ensures ok <==> Accepted(old(State()), RetrieveFinished(requestId, retrievedTokens, currTime))
      ensures State() == After(old(State()), RetrieveFinished(requestId, retrievedTokens, currTime))
      ensures ok ==> intervalHitTokens == old(intervalHitTokens) + retrievedTokens && requestId in retrieveRequests
      ensures ok ==>
        var before, after := old(retrieveRequests)[requestId], retrieveRequests[requestId];
        && after.endTime == currTime && after.startTime == before.startTime && after.numTokens == before.numTokens
        && (before.RetrieveStats? ==> after.RetrieveStats? && after.localHitTokens == retrievedTokens)
    {
      if requestId !in retrieveRequests {
        return false;
      }
      var retrieveStats := WithHits(retrieveRequests[requestId], retrievedTokens);
      retrieveStats := retrieveStats.(endTime := currTime);
      retrieveRequests := retrieveRequests[requestId := retrieveStats];
      intervalHitTokens := intervalHitTokens + retrievedTokens;
      return true;
    }

    method OnStoreRequest(numTokens: int, currTime: real) returns (id: nat)
      modifies this
      ensures id == old(storeRequestId)
      ensures State() == After(old(State()), StoreRequest(numTokens, currTime))
      ensures intervalStoreRequests == old(intervalStoreRequests) + 1
      ensures storeRequests == old(storeRequests)[id := StoreStats(numTokens, currTime, 0.0)]
    {
      var storeStats := StoreStats(numTokens, currTime, 0.0);
      intervalStoreRequests := intervalStoreRequests + 1;
      storeRequests := storeRequests[storeRequestId := storeStats];
      storeRequestId := storeRequestId + 1;
      return storeRequestId - 1;
    }

    /** false is an assertion failure. */
    method OnStoreFinished(requestId: nat, numTokens: int, currTime: real) returns (ok: bool)
      modifies this
      ensures ok <==> Accepted(old(State()), StoreFinished(requestId, numTokens, currTime))
      ensures State() == After(old(State()), StoreFinished(requestId, numTokens, currTime))
      ensures ok ==> requestId in storeRequests
      ensures ok ==>
        var before, after := old(storeRequests)[requestId], storeRequests[requestId];
        && after.endTime == currTime && after.startTime == before.startTime
        && after.numTokens == if numTokens < 0 then before.numTokens else numTokens
    {
      if requestId !in storeRequests {
        return false;
      }
      var storeStats := storeRequests[requestId].(endTime := currTime);
      if numTokens >= 0 {
        storeStats := storeStats.(numTokens := numTokens);
      }
      storeRequests := storeRequests[requestId := storeStats];
      return true;
    }

    method UpdateIntervalRemoteReadMetrics(readBytes: int)
      modifies this
      ensures State() == After(old(State()), RemoteRead(readBytes))
      ensures intervalRemoteReadRequests == old(intervalRemoteReadRequests) + 1
      ensures intervalRemoteReadBytes == old(intervalRemoteReadBytes) + readBytes
    {
      intervalRemoteReadRequests := intervalRemoteReadRequests + 1;
      intervalRemoteReadBytes := intervalRemoteReadBytes + readBytes;
    }

    method UpdateIntervalRemoteWriteMetrics(writeBytes: int)
      modifies this
      ensures State() == After(old(State()), RemoteWrite(writeBytes))
      ensures intervalRemoteWriteRequests == old(intervalRemoteWriteRequests) + 1
      ensures intervalRemoteWriteBytes == old(intervalRemoteWriteBytes) + writeBytes
    {
      intervalRemoteWriteRequests := intervalRemoteWriteRequests + 1;
      intervalRemoteWriteBytes := intervalRemoteWriteBytes + writeBytes;
    }

    /** The tracked requests that have not finished, found by going through the ids in
        the order they were given out. */
    static method KeepUnfinished(requests: Requests, next: nat) returns (kept: Requests)
      requires IdsBelow(requests, next)
      ensures kept == Unfinished(requests)
    {
      kept := map[];
      for id := 0 to next
        invariant kept == map i | i in requests && i < id && !requests[i].Finished() :: requests[i]
      {
        if id in requests && requests[id].endTime == 0.0 {
          kept := kept[id := requests[id]];
        }
      }
    }

    method Clear()
      requires IdsBelow(retrieveRequests, retrieveRequestId) && IdsBelow(storeRequests, storeRequestId)
      modifies this
      ensures State() == Cleared(old(State()))
    {
      intervalRetrieveRequests, intervalStoreRequests := 0, 0;
      intervalRequestedTokens, intervalHitTokens := 0, 0;
      intervalRemoteReadRequests, intervalRemoteReadBytes := 0, 0;
      intervalRemoteWriteRequests, intervalRemoteWriteBytes := 0, 0;
      retrieveRequests := KeepUnfinished(retrieveRequests, retrieveRequestId);
      storeRequests := KeepUnfinished(storeRequests, storeRequestId);
    }

    static method NonZeroDurations(requests: Requests, next: nat) returns (times: seq<real>)
      ensures times == Durations(requests, next)
    {
      times := [];
      for id := 0 to next
        invariant times == Durations(requests, id)
      {
        if id in requests {
          var t := requests[id].Duration();
          if t != 0.0 {
            times := times + [t];
          }
        }
      }
    }

    method GetStatsAndClear() returns (stats: Stats)
      requires IdsBelow(retrieveRequests, retrieveRequestId) && IdsBelow(storeRequests, storeRequestId)
      modifies this
      ensures stats == Snapshot(old(State()))
      ensures State() == Cleared(old(State()))
    {
      var timeToRetrieve := NonZeroDurations(retrieveRequests, retrieveRequestId);
      var timeToStore := NonZeroDurations(storeRequests, storeRequestId);
      stats := Stats(State().interval, timeToRetrieve, timeToStore);
      Clear();
    }
  }

  ghost predicate IdsBelow(requests: Requests, next: nat) {
    forall id :: id in requests ==> id < next
  }

  class PrometheusLogger {
    var totals: Counters

    constructor ()
      ensures totals == Zero
    {
      totals := Zero;
    }

    method LogCounter(counter: Kind, data: int)
      modifies this
      ensures forall k :: totals.Get(k) == old(totals).Get(k) + if k == counter then Positive(data) else 0
    {
      if data < 0 {
        return;
      }
      totals := totals.Inc(counter, data);
    }

    method LogPrometheus(stats: Stats)
      modifies this
      ensures totals == Logged(old(totals), stats)
    {
      hide Counters.Inc;
      LogCounter(RetrieveRequests, stats.counters.retrieveRequests);
      LogCounter(StoreRequests, stats.counters.storeRequests);
      LogCounter(RequestedTokens, stats.counters.requestedTokens);
      LogCounter(HitTokens, stats.counters.hitTokens);
      LogCounter(ReadRequests, stats.counters.readRequests);
      LogCounter(ReadBytes, stats.counters.readBytes);
      LogCounter(WriteRequests, stats.counters.writeRequests);
      LogCounter(WriteBytes, stats.counters.writeBytes);
      SameCounters(totals, Logged(old(totals), stats));
    }
  }

  /** One round of the logging thread: drain the monitor, then add what it held. */
  method LogRound(monitor: InfiniKVStatsMonitor, prometheusLogger: PrometheusLogger)
    requires IdsBelow(monitor.retrieveRequests, monitor.retrieveRequestId)
    requires IdsBelow(monitor.storeRequests, monitor.storeRequestId)
    modifies monitor, prometheusLogger
    ensures prometheusLogger.totals == Logged(old(prometheusLogger.totals), Snapshot(old(monitor.State())))
    ensures monitor.State() == Cleared(old(monitor.State()))
  {
    var stats := monitor.GetStatsAndClear();
    prometheusLogger.LogPrometheus(stats);
  }

  function Logged(totals: Counters, stats: Stats): (r: Counters)
    ensures forall k :: r.Get(k) == totals.Get(k) + Positive(stats.counters.Get(k))
  {
    var c := stats.counters;
    Counters(
      totals.retrieveRequests + Positive(c.retrieveRequests), totals.storeRequests + Positive(c.storeRequests),
      totals.requestedTokens + Positive(c.requestedTokens), totals.hitTokens + Positive(c.hitTokens),
      totals.readRequests + Positive(c.readRequests), totals.readBytes + Positive(c.readBytes),
      totals.writeRequests + Positive(c.writeRequests), totals.writeBytes + Positive(c.writeBytes))
  }

  lemma SameCounters(a: Counters, b: Counters)
    requires forall k :: a.Get(k) == b.Get(k)
    ensures a == b
  {
    assert a.Get(RetrieveRequests) == b.Get(RetrieveRequests) && a.Get(StoreRequests) == b.Get(StoreRequests);
    assert a.Get(RequestedTokens) == b.Get(RequestedTokens) && a.Get(HitTokens) == b.Get(HitTokens);
    assert a.Get(ReadRequests) == b.Get(ReadRequests) && a.Get(ReadBytes) == b.Get(ReadBytes);
    assert a.Get(WriteRequests) == b.Get(WriteRequests) && a.Get(WriteBytes) == b.Get(WriteBytes);
  }
}
