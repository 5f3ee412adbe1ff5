/**
 What holds over whole runs of the statistics monitor and its logger, whatever the
 interleaving of calls, drains and log steps.
 */
module StatsProof {
  import opened StatsMonitor

  // ------------------------------------------------------------------------- runs

  /** A call on the monitor, a drain, or the logging of the k-th snapshot drained but
      not yet logged. Each is atomic. */
  datatype Step = Do(call: Call) | Drain | Log(k: nat)

  datatype System = System(monitor: Monitor, drained: seq<Stats>, logged: seq<Stats>, totals: Counters)

  function Start(): System {
    System(Monitor(Zero, map[], 0, map[], 0), [], [], Zero)
  }

  function Next(s: System, step: Step): System {
    match step
    case Do(call) => s.(monitor := After(s.monitor, call))
    case Drain => s.(monitor := Cleared(s.monitor), drained := s.drained + [Snapshot(s.monitor)])
    case Log(k) =>
      if k < |s.drained|
      then s.(drained := s.drained[..k] + s.drained[k + 1..],
              logged := s.logged + [s.drained[k]],
              totals := Logged(s.totals, s.drained[k]))
      else s
  }

  function Run(steps: seq<Step>): System {
    if steps == [] then Start() else Next(Run(steps[..|steps| - 1]), steps[|steps| - 1])
  }

  /** What a step adds to the total of all events. */
  function Added(s: System, step: Step, kind: Kind): int {
    if step.Do? && Accepted(s.monitor, step.call) then Contribution(step.call, kind) else 0
  }

  function Total(steps: seq<Step>, kind: Kind): int {
    if steps == [] then 0
    else Total(steps[..|steps| - 1], kind) + Added(Run(steps[..|steps| - 1]), steps[|steps| - 1], kind)
  }

  function Sum(snapshots: seq<Stats>, kind: Kind): int {
    if snapshots == [] then 0
    else Sum(snapshots[..|snapshots| - 1], kind) + snapshots[|snapshots| - 1].counters.Get(kind)
  }

  function PositiveSum(snapshots: seq<Stats>, kind: Kind): nat {
    if snapshots == [] then 0
    else PositiveSum(snapshots[..|snapshots| - 1], kind) + Positive(snapshots[|snapshots| - 1].counters.Get(kind))
  }

  // ----------------------------------------------------------------- conservation

  lemma {:induction false} SumConcat(a: seq<Stats>, b: seq<Stats>, kind: Kind)
    ensures Sum(a + b, kind) == Sum(a, kind) + Sum(b, kind)
  {
    if b == [] {
      assert a + b == a;
    } else {
      assert (a + b)[..|a + b| - 1] == a + b[..|b| - 1];
      SumConcat(a, b[..|b| - 1], kind);
    }
  }

  lemma SumWithout(a: seq<Stats>, k: nat, kind: Kind)
    requires k < |a|
    ensures Sum(a[..k] + a[k + 1..], kind) == Sum(a, kind) - a[k].counters.Get(kind)
  {
    SumConcat(a[..k], a[k + 1..], kind);
    assert a == a[..k + 1] + a[k + 1..];
    SumConcat(a[..k + 1], a[k + 1..], kind);
    assert a[..k + 1][..k] == a[..k];
  }

  /** Nothing is lost or counted twice: what was logged, what was drained but not yet
      logged, and the current interval add up to all events. */
  lemma {:induction false} NothingIsLost(steps: seq<Step>, kind: Kind)
    ensures var s := Run(steps);
            Sum(s.logged, kind) + Sum(s.drained, kind) + s.monitor.interval.Get(kind) == Total(steps, kind)
  {
    if steps != [] {
      var before, step := Run(steps[..|steps| - 1]), steps[|steps| - 1];
      NothingIsLost(steps[..|steps| - 1], kind);
      StepKeepsSum(before, step, kind);
    }
  }

  function Held(s: System, kind: Kind): int {
    Sum(s.logged, kind) + Sum(s.drained, kind) + s.monitor.interval.Get(kind)
  }

  lemma StepKeepsSum(s: System, step: Step, kind: Kind)
    ensures Held(Next(s, step), kind) == Held(s, kind) + Added(s, step, kind)
  {
    match step
    case Do(call) =>
    case Drain =>
      assert (s.drained + [Snapshot(s.monitor)])[..|s.drained|] == s.drained;
    case Log(k) =>
      if k < |s.drained| {
        SumWithout(s.drained, k, kind);
        assert (s.logged + [s.drained[k]])[..|s.logged|] == s.logged;
      }
  }

  lemma {:induction false} TotalsArePositiveSums(steps: seq<Step>, kind: Kind)
    ensures Run(steps).totals.Get(kind) == PositiveSum(Run(steps).logged, kind)
  {
    if steps != [] {
      var s, step := Run(steps[..|steps| - 1]), steps[|steps| - 1];
      TotalsArePositiveSums(steps[..|steps| - 1], kind);
      StepKeepsPositiveSum(s, step, kind);
    }
  }

  lemma StepKeepsPositiveSum(s: System, step: Step, kind: Kind)
    requires s.totals.Get(kind) == PositiveSum(s.logged, kind)
    ensures Next(s, step).totals.Get(kind) == PositiveSum(Next(s, step).logged, kind)
  {
    hide Counters.Get, After, Cleared, Snapshot;
    if step.Log? && step.k < |s.drained| {
      assert (s.logged + [s.drained[step.k]])[..|s.logged|] == s.logged;
    }
  }

  lemma {:induction false} PositiveSumDrops(snapshots: seq<Stats>, kind: Kind)
    ensures PositiveSum(snapshots, kind) >= Sum(snapshots, kind)
    ensures PositiveSum(snapshots, kind) == Sum(snapshots, kind)
       <==> forall st :: st in snapshots ==> st.counters.Get(kind) >= 0
  {
    if snapshots != [] {
      var rest, last := snapshots[..|snapshots| - 1], snapshots[|snapshots| - 1];
      PositiveSumDrops(rest, kind);
      assert snapshots == rest + [last];
    }
  }

  predicate HoldsEverything(steps: seq<Step>, kind: Kind) {
    var s := Run(steps);
    s.totals.Get(kind) + Sum(s.drained, kind) + s.monitor.interval.Get(kind) == Total(steps, kind)
  }

  /** The Prometheus counter, the snapshots on their way to it and the current interval
      hold all events exactly when no logged snapshot was negative. */
  lemma CountersHoldEverythingExactly(steps: seq<Step>, kind: Kind)
    ensures HoldsEverything(steps, kind)
       <==> forall st :: st in Run(steps).logged ==> st.counters.Get(kind) >= 0
  {
    NothingIsLost(steps, kind);
    TotalsArePositiveSums(steps, kind);
    PositiveSumDrops(Run(steps).logged, kind);
  }

  predicate NonNegative(step: Step) {
    match step
    case Do(RetrieveRequest(n, _)) => n >= 0
    case Do(RetrieveFinished(_, n, _)) => n >= 0
    case Do(RemoteRead(n)) => n >= 0
    case Do(RemoteWrite(n)) => n >= 0
    case _ => true
  }

  ghost predicate AllNonNegative(s: System) {
    && (forall k :: s.monitor.interval.Get(k) >= 0)
    && (forall st, k :: st in s.drained ==> st.counters.Get(k) >= 0)
    && (forall st, k :: st in s.logged ==> st.counters.Get(k) >= 0)
  }

  lemma {:induction false} NonNegativeRuns(steps: seq<Step>)
    requires forall i :: 0 <= i < |steps| ==> NonNegative(steps[i])
    ensures AllNonNegative(Run(steps))
  {
    if steps != [] {
      var s, step := Run(steps[..|steps| - 1]), steps[|steps| - 1];
      NonNegativeRuns(steps[..|steps| - 1]);
      assert NonNegative(step);
      match step
      case Do(call) => NonNegativeCall(s.monitor, call);
      case Drain =>
      case Log(_) =>
    }
  }

  lemma NonNegativeCall(m: Monitor, call: Call)
    requires NonNegative(Do(call)) && forall k :: m.interval.Get(k) >= 0
    ensures forall k :: After(m, call).interval.Get(k) >= 0
  {
  }

  /** With non-negative token and byte counts, conservation holds of every counter. */
  lemma CountersHoldEverything(steps: seq<Step>, kind: Kind)
    requires forall i :: 0 <= i < |steps| ==> NonNegative(steps[i])
    ensures HoldsEverything(steps, kind)
  {
    NonNegativeRuns(steps);
    CountersHoldEverythingExactly(steps, kind);
  }

  // ------------------------------------------------------------- request tracking

  datatype Side = RetrieveSide | StoreSide

  function Tracked(s: System, side: Side): Requests {
    if side.RetrieveSide? then s.monitor.retrieve else s.monitor.store
  }

  /** The number of ids given out, which is also the next id. */
  function Issued(s: System, side: Side): nat {
    if side.RetrieveSide? then s.monitor.nextRetrieve else s.monitor.nextStore
  }

  predicate IsRequest(step: Step, side: Side) {
    step.Do? && if side.RetrieveSide? then step.call.RetrieveRequest? else step.call.StoreRequest?
  }

  /** Drain at step d found the request finished, and forgot it. */
  ghost predicate ReportedAt(steps: seq<Step>, side: Side, id: nat, d: nat) {
    && d < |steps| && steps[d].Drain?
    && id in Tracked(Run(steps[..d]), side) && Tracked(Run(steps[..d]), side)[id].Finished()
  }

  ghost predicate Reported(steps: seq<Step>, side: Side, id: nat) {
    exists d :: ReportedAt(steps, side, id, d)
  }

  /** Ids are given out in order, one by each request, and never again; and what one step
      does to the tracking of an id. */
  lemma StepTracks(s: System, step: Step, side: Side, id: nat)
    requires IdsBelow(Tracked(s, side), Issued(s, side))
    ensures IdsBelow(Tracked(Next(s, step), side), Issued(Next(s, step), side))
    ensures Issued(Next(s, step), side) == Issued(s, side) + if IsRequest(step, side) then 1 else 0
    ensures id in Tracked(Next(s, step), side)
       <==> || (IsRequest(step, side) && id == Issued(s, side))
            || (id in Tracked(s, side) && !(step.Drain? && Tracked(s, side)[id].Finished()))
  {
  }

  lemma {:induction false} IdsStayBelow(steps: seq<Step>, side: Side)
    ensures IdsBelow(Tracked(Run(steps), side), Issued(Run(steps), side))
  {
    if steps != [] {
      IdsStayBelow(steps[..|steps| - 1], side);
      StepTracks(Run(steps[..|steps| - 1]), steps[|steps| - 1], side, 0);
    }
  }

  /** Of every id ever given out, exactly one is true: it is still tracked, or one drain
      found it finished. Unfinished requests survive every clear, a finished one goes at
      the next drain, and none comes back. */
  lemma {:induction false} TrackedUntilReported(steps: seq<Step>, side: Side, id: nat)
    requires id < Issued(Run(steps), side)
    ensures id in Tracked(Run(steps), side) <==> !Reported(steps, side, id)
  {
    if steps != [] {
      var n := |steps| - 1;
      var earlier := steps[..n];
      var s := Run(earlier);
      IdsStayBelow(earlier, side);
      StepTracks(s, steps[n], side, id);
      ReportedNext(steps, side, id);
      if id < Issued(s, side) {
        TrackedUntilReported(earlier, side, id);
      } else {
        NotYetReported(earlier, side, id);
      }
    }
  }

  lemma ReportedNext(steps: seq<Step>, side: Side, id: nat)
    requires steps != []
    ensures var n := |steps| - 1;
            Reported(steps, side, id) <==> Reported(steps[..n], side, id) || ReportedAt(steps, side, id, n)
  {
    var n := |steps| - 1;
    forall d: nat | d < n ensures ReportedAt(steps, side, id, d) <==> ReportedAt(steps[..n], side, id, d) {
      assert steps[..n][..d] == steps[..d];
    }
    if Reported(steps, side, id) {
      var d: nat :| ReportedAt(steps, side, id, d);
      if d < n {
        assert ReportedAt(steps[..n], side, id, d);
      }
    }
    if Reported(steps[..n], side, id) {
      var d: nat :| ReportedAt(steps[..n], side, id, d);
      assert ReportedAt(steps, side, id, d);
    }
  }

  lemma NotYetReported(steps: seq<Step>, side: Side, id: nat)
    requires id >= Issued(Run(steps), side)
    ensures !Reported(steps, side, id)
  {
    if Reported(steps, side, id) {
      var d: nat :| ReportedAt(steps, side, id, d);
      IdsStayBelow(steps[..d], side);
      IssuedGrows(steps, side, d);
    }
  }

  lemma {:induction false} IssuedGrows(steps: seq<Step>, side: Side, i: nat)
    requires i <= |steps|
    ensures Issued(Run(steps[..i]), side) <= Issued(Run(steps), side)
  {
    if i == |steps| {
      assert steps[..i] == steps;
    } else {
      var n := |steps| - 1;
      assert steps[..n][..i] == steps[..i];
      IssuedGrows(steps[..n], side, i);
      IdsStayBelow(steps[..n], side);
      StepTracks(Run(steps[..n]), steps[n], side, 0);
    }
  }

  /** No request is reported by two drains. */
  lemma ReportedOnce(steps: seq<Step>, side: Side, id: nat, d: nat, d': nat)
    requires ReportedAt(steps, side, id, d) && ReportedAt(steps, side, id, d')
    ensures d == d'
  {
    if d < d' {
      ReportedEarlierNeverTracked(steps, side, id, d, d');
    }
    if d' < d {
      ReportedEarlierNeverTracked(steps, side, id, d', d);
    }
  }

  lemma ReportedEarlierNeverTracked(steps: seq<Step>, side: Side, id: nat, d: nat, d': nat)
    requires ReportedAt(steps, side, id, d) && d < d' <= |steps|
    ensures id !in Tracked(Run(steps[..d']), side)
  {
    var upto := steps[..d'];
    assert upto[..d] == steps[..d];
    assert ReportedAt(upto, side, id, d);
    IdsStayBelow(upto[..d], side);
    IssuedGrows(upto, side, d);
    TrackedUntilReported(upto, side, id);
  }

  // ------------------------------------------------------------ what a drain lists

  /** The ids below n with a non-zero duration. */
  function TimedIds(requests: Requests, n: nat): seq<nat> {
    if n == 0 then []
    else TimedIds(requests, n - 1) + if n - 1 in requests && requests[n - 1].Duration() != 0.0 then [n - 1] else []
  }

  /** Those are the ids of the finished requests that took any time, in order. */
  lemma {:induction false} TimedIdsAreFinished(requests: Requests, n: nat)
    ensures forall id: nat :: id in TimedIds(requests, n) <==>
              id < n && id in requests && requests[id].Finished() && requests[id].endTime != requests[id].startTime
    ensures forall i, j :: 0 <= i < j < |TimedIds(requests, n)| ==> TimedIds(requests, n)[i] < TimedIds(requests, n)[j]
  {
    if n > 0 {
      TimedIdsAreFinished(requests, n - 1);
      var before := TimedIds(requests, n - 1);
      assert forall i :: 0 <= i < |before| ==> before[i] in before;
    }
  }

  /** The times of a snapshot are the durations of exactly those requests, one for each. */
  lemma {:induction false} DurationsOfFinished(requests: Requests, n: nat)
    ensures |Durations(requests, n)| == |TimedIds(requests, n)|
    ensures forall i :: 0 <= i < |TimedIds(requests, n)| ==>
              && TimedIds(requests, n)[i] in requests
              && Durations(requests, n)[i]
                 == requests[TimedIds(requests, n)[i]].endTime - requests[TimedIds(requests, n)[i]].startTime
  {
    if n > 0 {
      DurationsOfFinished(requests, n - 1);
    }
  }

  // -------------------------------------------------------- the times of a request

  /** The finish of the given request. */
  predicate IsFinish(step: Step, side: Side, id: nat) {
    && step.Do?
    && (if side.RetrieveSide? then step.call.RetrieveFinished? else step.call.StoreFinished?)
    && step.call.id == id
  }

  /** The clock reading that a step passes on. */
  function Now(step: Step): real {
    match step
    case Do(RetrieveRequest(_, now)) => now
    case Do(RetrieveFinished(_, _, now)) => now
    case Do(StoreRequest(_, now)) => now
    case Do(StoreFinished(_, _, now)) => now
    case _ => 0.0
  }

  /** Step r is the request that gave out the id. */
  ghost predicate RequestedAt(steps: seq<Step>, side: Side, id: nat, r: nat) {
    r < |steps| && IsRequest(steps[r], side) && Issued(Run(steps[..r]), side) == id
  }

  /** Step f is an accepted finish of the id. */
  ghost predicate FinishedAt(steps: seq<Step>, side: Side, id: nat, f: nat) {
    f < |steps| && IsFinish(steps[f], side, id) && id in Tracked(Run(steps[..f]), side)
  }

  ghost predicate LastFinishedAt(steps: seq<Step>, side: Side, id: nat, f: nat) {
    FinishedAt(steps, side, id, f) && forall l: nat :: f < l ==> !FinishedAt(steps, side, id, l)
  }

  ghost predicate NeverFinished(steps: seq<Step>, side: Side, id: nat) {
    forall f: nat :: !FinishedAt(steps, side, id, f)
  }

  /** What one step does to the times of a request that is tracked after it. */
  lemma StepTimes(s: System, step: Step, side: Side, id: nat)
    requires IdsBelow(Tracked(s, side), Issued(s, side)) && id in Tracked(Next(s, step), side)
    ensures
      var after := Tracked(Next(s, step), side)[id];
      if IsRequest(step, side) && Issued(s, side) == id then after.startTime == Now(step) && after.endTime == 0.0
      else
        && id in Tracked(s, side) && after.startTime == Tracked(s, side)[id].startTime
        && after.endTime == if IsFinish(step, side, id) then Now(step) else Tracked(s, side)[id].endTime
  {
  }

  lemma PrefixFinishes(steps: seq<Step>, side: Side, id: nat, n: nat, f: nat)
    requires f < n <= |steps|
    ensures FinishedAt(steps[..n], side, id, f) <==> FinishedAt(steps, side, id, f)
    ensures RequestedAt(steps[..n], side, id, f) <==> RequestedAt(steps, side, id, f)
  {
    assert steps[..n][..f] == steps[..f];
  }

  /** Until its request nothing concerns an id, and no other request gives it out. */
  lemma NothingBeforeRequest(steps: seq<Step>, side: Side, id: nat, r: nat, l: nat)
    requires RequestedAt(steps, side, id, r) && l < r
    ensures !FinishedAt(steps, side, id, l) && !RequestedAt(steps, side, id, l)
  {
    IdsStayBelow(steps[..l], side);
    assert steps[..r][..l] == steps[..l] && steps[..r][..l + 1] == steps[..l + 1];
    IssuedGrows(steps[..r], side, l);
    if RequestedAt(steps, side, id, l) {
      IssuedGrows(steps[..r], side, l + 1);
      assert steps[..l + 1][..l] == steps[..l];
      StepTracks(Run(steps[..l]), steps[l], side, id);
    }
  }

  /** How the last finish of a run is found in the run without its last step. */
  lemma TimesMore(steps: seq<Step>, side: Side, id: nat)
    requires steps != []
    ensures var n := |steps| - 1;
            FinishedAt(steps, side, id, n) ==> !NeverFinished(steps, side, id)
    ensures var n := |steps| - 1;
            FinishedAt(steps, side, id, n) ==> forall f: nat :: LastFinishedAt(steps, side, id, f) ==> f == n
    ensures var n := |steps| - 1;
            !FinishedAt(steps, side, id, n) && NeverFinished(steps, side, id) ==> NeverFinished(steps[..n], side, id)
    ensures
      var n := |steps| - 1;
      !FinishedAt(steps, side, id, n) ==>
        forall f: nat :: LastFinishedAt(steps, side, id, f) ==> f < n && LastFinishedAt(steps[..n], side, id, f)
  {
    var n := |steps| - 1;
    forall f: nat | f < n ensures FinishedAt(steps[..n], side, id, f) <==> FinishedAt(steps, side, id, f) {
      PrefixFinishes(steps, side, id, n, f);
    }
    hide Run, Tracked, IsFinish;
    assert forall f: nat :: FinishedAt(steps[..n], side, id, f) ==> f < n;
    assert forall f: nat :: FinishedAt(steps, side, id, f) ==> f <= n;
  }

  /** The time of the last accepted finish of the id, or zero if there is none. */
  ghost predicate EndsAtLastFinish(steps: seq<Step>, side: Side, id: nat, end: real) {
    && (forall f: nat :: LastFinishedAt(steps, side, id, f) ==> end == Now(steps[f]))
    && (NeverFinished(steps, side, id) ==> end == 0.0)
  }

  lemma EndsNext(steps: seq<Step>, side: Side, id: nat, before: real, after: real)
    requires steps != [] && EndsAtLastFinish(steps[..|steps| - 1], side, id, before)
    requires after == if FinishedAt(steps, side, id, |steps| - 1) then Now(steps[|steps| - 1]) else before
    ensures EndsAtLastFinish(steps, side, id, after)
  {
    TimesMore(steps, side, id);
    hide FinishedAt, NeverFinished, Now;
  }

  lemma JustRequested(steps: seq<Step>, side: Side, id: nat, r: nat)
    requires steps != [] && RequestedAt(steps, side, id, |steps| - 1)
    ensures NeverFinished(steps, side, id) && (RequestedAt(steps, side, id, r) ==> r == |steps| - 1)
  {
    var n := |steps| - 1;
    if r < n {
      NothingBeforeRequest(steps, side, id, n, r);
    }
    forall f: nat ensures !FinishedAt(steps, side, id, f) {
      if f < n {
        NothingBeforeRequest(steps, side, id, n, f);
      }
    }
  }

  /** The record of a tracked request starts at the time of the request that gave out its
      id, and ends at the time of its last accepted finish, or at zero if there is none. */
  lemma {:induction false} TrackedTimes(steps: seq<Step>, side: Side, id: nat, r: nat)
    requires id in Tracked(Run(steps), side) && RequestedAt(steps, side, id, r)
    ensures Tracked(Run(steps), side)[id].startTime == Now(steps[r])
    ensures EndsAtLastFinish(steps, side, id, Tracked(Run(steps), side)[id].endTime)
  {
    var n := |steps| - 1;
    IdsStayBelow(steps[..n], side);
    StepTimes(Run(steps[..n]), steps[n], side, id);
    hide Next, Run, Tracked, Issued, Now, EndsAtLastFinish;
    if IsRequest(steps[n], side) && Issued(Run(steps[..n]), side) == id {
      JustRequested(steps, side, id, r);
      NoFinishNoEnd(steps, side, id);
    } else {
      PrefixFinishes(steps, side, id, n, r);
      TrackedTimes(steps[..n], side, id, r);
      EndsNext(steps, side, id, Tracked(Run(steps[..n]), side)[id].endTime, Tracked(Run(steps), side)[id].endTime);
    }
  }

  lemma NoFinishNoEnd(steps: seq<Step>, side: Side, id: nat)
    requires NeverFinished(steps, side, id)
    ensures EndsAtLastFinish(steps, side, id, 0.0)
  {
  }

  /** Every tracked id was given out by a request of the run. */
  lemma {:induction false} RequestOfTracked(steps: seq<Step>, side: Side, id: nat) returns (r: nat)
    requires id < Issued(Run(steps), side)
    ensures RequestedAt(steps, side, id, r)
  {
    var n := |steps| - 1;
    IdsStayBelow(steps[..n], side);
    StepTracks(Run(steps[..n]), steps[n], side, id);
    if id < Issued(Run(steps[..n]), side) {
      r := RequestOfTracked(steps[..n], side, id);
      PrefixFinishes(steps, side, id, n, r);
    } else {
      r := n;
    }
  }

  /** The last accepted finish in a run that has one. */
  lemma {:induction false} LastFinish(steps: seq<Step>, side: Side, id: nat, f0: nat) returns (f: nat)
    requires FinishedAt(steps, side, id, f0)
    ensures f0 <= f && LastFinishedAt(steps, side, id, f)
    decreases |steps| - f0
  {
    if l: nat :| f0 < l && FinishedAt(steps, side, id, l) {
      f := LastFinish(steps, side, id, l);
    } else {
      f := f0;
    }
  }

  /** The times a drain lists for one side. */
  function Times(stats: Stats, side: Side): seq<real> {
    if side.RetrieveSide? then stats.timeToRetrieve else stats.timeToStore
  }

  /** Each time that a drain after the given steps lists is that of one request: the time
      of its last accepted finish less the time of the request call that gave out its id. */
  lemma ListedTimes(steps: seq<Step>, side: Side, i: nat) returns (id: nat, r: nat, f: nat)
    requires i < |Times(Snapshot(Run(steps).monitor), side)|
    ensures id in Tracked(Run(steps), side) && RequestedAt(steps, side, id, r) && LastFinishedAt(steps, side, id, f)
    ensures Times(Snapshot(Run(steps).monitor), side)[i] == Now(steps[f]) - Now(steps[r])
    ensures i < |TimedIds(Tracked(Run(steps), side), Issued(Run(steps), side))|
    ensures id == TimedIds(Tracked(Run(steps), side), Issued(Run(steps), side))[i]
  {
    var requests, next := Tracked(Run(steps), side), Issued(Run(steps), side);
    assert Times(Snapshot(Run(steps).monitor), side) == Durations(requests, next);
    DurationsOfFinished(requests, next);
    id := TimedIds(requests, next)[i];
    TimedIdsAreFinished(requests, next);
    assert id in TimedIds(requests, next);
    hide Run, Durations, TimedIds, Tracked, Issued;
    r, f := FinishOfTracked(steps, side, id);
  }

  /** A tracked request that counts as finished, with the calls its times come from. */
  lemma FinishOfTracked(steps: seq<Step>, side: Side, id: nat) returns (r: nat, f: nat)
    requires id in Tracked(Run(steps), side) && Tracked(Run(steps), side)[id].Finished()
    ensures RequestedAt(steps, side, id, r) && LastFinishedAt(steps, side, id, f)
    ensures Tracked(Run(steps), side)[id].startTime == Now(steps[r])
    ensures Tracked(Run(steps), side)[id].endTime == Now(steps[f])
  {
    hide Run, Tracked, Issued;
    IdsStayBelow(steps, side);
    r := RequestOfTracked(steps, side, id);
    TrackedTimes(steps, side, id, r);
    var f0: nat :| FinishedAt(steps, side, id, f0);
    f := LastFinish(steps, side, id, f0);
  }

  /** An id is listed by a drain after the given steps exactly when it is still tracked and
      its last accepted finish came at another time than zero and than its request. */
  lemma ListedExactly(steps: seq<Step>, side: Side, id: nat)
    ensures id in TimedIds(Tracked(Run(steps), side), Issued(Run(steps), side))
       <==> && id in Tracked(Run(steps), side)
            && exists r: nat, f: nat :: RequestedAt(steps, side, id, r) && LastFinishedAt(steps, side, id, f)
                 && Now(steps[f]) != 0.0 && Now(steps[f]) != Now(steps[r])
  {
    IdsStayBelow(steps, side);
    TimedIdsAreFinished(Tracked(Run(steps), side), Issued(Run(steps), side));
    hide Run, Tracked, Issued, TimedIds;
    if id in Tracked(Run(steps), side) {
      if Tracked(Run(steps), side)[id].Finished() {
        var r, f := FinishOfTracked(steps, side, id);
        forall r': nat, f': nat | RequestedAt(steps, side, id, r') && LastFinishedAt(steps, side, id, f')
          ensures Now(steps[r']) == Now(steps[r]) && Now(steps[f']) == Now(steps[f])
        {
          TrackedTimes(steps, side, id, r');
        }
      } else {
        forall r: nat, f: nat | RequestedAt(steps, side, id, r) && LastFinishedAt(steps, side, id, f)
          ensures Now(steps[f]) == 0.0
        {
          TrackedTimes(steps, side, id, r);
        }
      }
    }
  }

  /** An accepted finish at another time than zero, with no later finish of the id before
      it, makes the next drain report the id. */
  lemma FinishIsReported(steps: seq<Step>, side: Side, id: nat, f: nat, d: nat)
    requires FinishedAt(steps, side, id, f) && Now(steps[f]) != 0.0
    requires f < d < |steps| && steps[d].Drain?
    requires forall k :: f < k < d ==> !steps[k].Drain? && !IsFinish(steps[k], side, id)
    ensures ReportedAt(steps, side, id, d)
  {
    StaysFinished(steps, side, id, f, d);
  }

  lemma {:induction false} StaysFinished(steps: seq<Step>, side: Side, id: nat, f: nat, d: nat)
    requires FinishedAt(steps, side, id, f) && f < d <= |steps|
    requires forall k :: f < k < d ==> !steps[k].Drain? && !IsFinish(steps[k], side, id)
    ensures id in Tracked(Run(steps[..d]), side) && Tracked(Run(steps[..d]), side)[id].endTime == Now(steps[f])
  {
    var before, step := Run(steps[..d - 1]), steps[d - 1];
    RunPrefix(steps, d - 1);
    IdsStayBelow(steps[..d - 1], side);
    StepTracks(before, step, side, id);
    hide Run;
    if f < d - 1 {
      StaysFinished(steps, side, id, f, d - 1);
    }
    StepTimes(before, step, side, id);
  }

  // ------------------------------------------------------- hit and requested tokens

  /** The tokens asked for by tracked requests that have not finished. */
  function Outstanding(requests: Requests, n: nat): int {
    if n == 0 then 0
    else Outstanding(requests, n - 1) +
         if n - 1 in requests && !requests[n - 1].Finished() then requests[n - 1].numTokens else 0
  }

  /** The part of Outstanding that one tracked request makes up. */
  function Open(r: RequestStats): int {
    if r.Finished() then 0 else r.numTokens
  }

  lemma {:induction false} OutstandingFrame(a: Requests, b: Requests, n: nat)
    requires forall id :: id < n ==> (id in a && !a[id].Finished() <==> id in b && !b[id].Finished())
    requires forall id :: id < n && id in a && !a[id].Finished() ==> a[id].numTokens == b[id].numTokens
    ensures Outstanding(a, n) == Outstanding(b, n)
  {
    if n > 0 {
      OutstandingFrame(a, b, n - 1);
    }
  }

  lemma {:induction false} OutstandingChange(requests: Requests, n: nat, id: nat, r: RequestStats)
    requires id < n && id in requests
    ensures Outstanding(requests[id := r], n) == Outstanding(requests, n) - Open(requests[id]) + Open(r)
  {
    if id == n - 1 {
      OutstandingFrame(requests, requests[id := r], n - 1);
    } else {
      OutstandingChange(requests, n - 1, id, r);
    }
  }

  /** How a finish can part from taking exactly what an open request asked for: some of
      it stays unused; a request that was not open takes hits; a finish at time zero
      opens a finished request again. */
  datatype Part = Unused | Refinished | Reopened

  /** An accepted finish that closes an open request. */
  predicate Closes(s: System, id: nat, now: real) {
    id in s.monitor.retrieve && !s.monitor.retrieve[id].Finished() && now != 0.0
  }

  function PartBy(s: System, step: Step, part: Part): int {
    match step
    case Do(RetrieveFinished(id, n, now)) =>
      if id !in s.monitor.retrieve then 0
      else
        var asked := s.monitor.retrieve[id].numTokens;
        (match part
         case Unused => if Closes(s, id, now) then asked - n else 0
         case Refinished => if Closes(s, id, now) then 0 else n
         case Reopened => if s.monitor.retrieve[id].Finished() && now == 0.0 then asked else 0)
    case _ => 0
  }

  function PartTotal(steps: seq<Step>, part: Part): int {
    if steps == [] then 0
    else PartTotal(steps[..|steps| - 1], part) + PartBy(Run(steps[..|steps| - 1]), steps[|steps| - 1], part)
  }

  function OutstandingAfter(steps: seq<Step>): int {
    Outstanding(Run(steps).monitor.retrieve, Run(steps).monitor.nextRetrieve)
  }

  lemma StepHits(s: System, step: Step)
    requires IdsBelow(s.monitor.retrieve, s.monitor.nextRetrieve)
    ensures var m := Next(s, step).monitor;
            Added(s, step, HitTokens)
            == Added(s, step, RequestedTokens)
               - (Outstanding(m.retrieve, m.nextRetrieve) - Outstanding(s.monitor.retrieve, s.monitor.nextRetrieve))
               - PartBy(s, step, Unused) + PartBy(s, step, Refinished) + PartBy(s, step, Reopened)
  {
    var before, next := s.monitor.retrieve, s.monitor.nextRetrieve;
    match step
    case Drain =>
      OutstandingFrame(before, Unfinished(before), next);
    case Log(_) =>
    case Do(call) =>
      match call {
        case RetrieveRequest(n, now) =>
          OutstandingFrame(before, before[next := RetrieveStats(n, 0, 0, now, 0.0)], next);
        case RetrieveFinished(id, n, now) =>
          if id in before {
            OutstandingChange(before, next, id, WithHits(before[id], n).(endTime := now));
          }
        case _ =>
      }
  }

  /** The exact account, over every run: the tokens hit are those requested, less what
      is still outstanding and what closing finishes left unused, plus what other
      finishes added. */
  lemma {:induction false} HitsAccount(steps: seq<Step>)
    ensures Total(steps, HitTokens)
            == Total(steps, RequestedTokens) - OutstandingAfter(steps)
               - PartTotal(steps, Unused) + PartTotal(steps, Refinished) + PartTotal(steps, Reopened)
  {
    if steps != [] {
      var n := |steps| - 1;
      HitsAccount(steps[..n]);
      IdsStayBelow(steps[..n], RetrieveSide);
      StepHits(Run(steps[..n]), steps[n]);
      hide PartBy, Added, Next, Outstanding;
    }
  }

  /** The tokens hit stay within the tokens requested exactly when what extra finishes
      added is covered by what is outstanding or unused. */
  lemma HitsWithinRequestedExactly(steps: seq<Step>)
    ensures Total(steps, HitTokens) <= Total(steps, RequestedTokens)
       <==> PartTotal(steps, Refinished) + PartTotal(steps, Reopened) <= OutstandingAfter(steps) + PartTotal(steps, Unused)
  {
    HitsAccount(steps);
  }

  /** A request is for a non-negative number of tokens, and an accepted finish takes no
      more than was asked for and closes an open request: none is finished twice before
      a drain, and the clock does not read zero. */
  ghost predicate Orderly(s: System, step: Step) {
    match step
    case Do(RetrieveRequest(n, _)) => n >= 0
    case Do(RetrieveFinished(id, n, now)) =>
      id in s.monitor.retrieve ==> n <= s.monitor.retrieve[id].numTokens && Closes(s, id, now)
    case _ => true
  }

  ghost predicate OrderlyRun(steps: seq<Step>) {
    forall i :: 0 <= i < |steps| ==> Orderly(Run(steps[..i]), steps[i])
  }

  lemma OrderlyPrefix(steps: seq<Step>)
    requires OrderlyRun(steps) && steps != []
    ensures OrderlyRun(steps[..|steps| - 1]) && Orderly(Run(steps[..|steps| - 1]), steps[|steps| - 1])
  {
    var earlier := steps[..|steps| - 1];
    forall i | 0 <= i < |earlier| ensures Orderly(Run(earlier[..i]), earlier[i]) {
      assert earlier[..i] == steps[..i];
    }
  }

  lemma {:induction false} OrderlyParts(steps: seq<Step>)
    requires OrderlyRun(steps)
    ensures PartTotal(steps, Unused) >= 0 && PartTotal(steps, Refinished) == PartTotal(steps, Reopened) == 0
  {
    if steps != [] {
      OrderlyPrefix(steps);
      OrderlyParts(steps[..|steps| - 1]);
      hide Run, OrderlyRun;
    }
  }

  ghost predicate TokensAtLeast(requests: Requests, least: int) {
    forall id :: id in requests ==> requests[id].numTokens >= least
  }

  lemma StepKeepsTokens(s: System, step: Step, least: int)
    requires TokensAtLeast(s.monitor.retrieve, least)
    requires step.Do? && step.call.RetrieveRequest? ==> step.call.numTokens >= least
    ensures TokensAtLeast(Next(s, step).monitor.retrieve, least)
  {
  }

  lemma {:induction false} TokensStayNonNegative(steps: seq<Step>)
    requires OrderlyRun(steps)
    ensures TokensAtLeast(Run(steps).monitor.retrieve, 0)
  {
    if steps != [] {
      OrderlyPrefix(steps);
      TokensStayNonNegative(steps[..|steps| - 1]);
      StepKeepsTokens(Run(steps[..|steps| - 1]), steps[|steps| - 1], 0);
    }
  }

  lemma {:induction false} OutstandingNonNegative(requests: Requests, n: nat)
    requires TokensAtLeast(requests, 0)
    ensures Outstanding(requests, n) >= 0
  {
    if n > 0 {
      OutstandingNonNegative(requests, n - 1);
    }
  }

  /** If no accepted finish hits a request that is already finished, and none takes more
      than was asked for, the tokens hit never exceed the tokens requested. */
  lemma HitsNeverExceedRequested(steps: seq<Step>)
    requires OrderlyRun(steps)
    ensures Total(steps, HitTokens) <= Total(steps, RequestedTokens)
  {
    HitsAccount(steps);
    OrderlyParts(steps);
    TokensStayNonNegative(steps);
    OutstandingNonNegative(Run(steps).monitor.retrieve, Run(steps).monitor.nextRetrieve);
  }

  // ----------------------------------------------------------- complete finishes

  /** Requests are for some tokens, and an accepted finish takes all of them, at a time
      other than zero. */
  ghost predicate Complete(s: System, step: Step) {
    match step
    case Do(RetrieveRequest(n, _)) => n > 0
    case Do(RetrieveFinished(id, n, now)) =>
      id in s.monitor.retrieve ==> n == s.monitor.retrieve[id].numTokens && now != 0.0
    case _ => true
  }

  ghost predicate CompleteRun(steps: seq<Step>) {
    forall i :: 0 <= i < |steps| ==> Complete(Run(steps[..i]), steps[i])
  }

  /** The step finishes a request that is tracked as finished already. */
  ghost predicate FinishesAgain(s: System, step: Step) {
    && step.Do? && step.call.RetrieveFinished?
    && step.call.id in s.monitor.retrieve && s.monitor.retrieve[step.call.id].Finished()
  }

  ghost predicate NoneFinishedAgain(steps: seq<Step>) {
    forall i :: 0 <= i < |steps| ==> !FinishesAgain(Run(steps[..i]), steps[i])
  }

  lemma CompletePrefix(steps: seq<Step>)
    requires CompleteRun(steps) && steps != []
    ensures CompleteRun(steps[..|steps| - 1]) && Complete(Run(steps[..|steps| - 1]), steps[|steps| - 1])
  {
    var earlier := steps[..|steps| - 1];
    forall i | 0 <= i < |earlier| ensures Complete(Run(earlier[..i]), earlier[i]) {
      assert earlier[..i] == steps[..i];
    }
  }

  lemma NoneFinishedAgainNext(steps: seq<Step>)
    requires steps != []
    ensures var n := |steps| - 1;
            NoneFinishedAgain(steps) <==> NoneFinishedAgain(steps[..n]) && !FinishesAgain(Run(steps[..n]), steps[n])
  {
    hide FinishesAgain, Run;
    var n := |steps| - 1;
    forall i | 0 <= i < n ensures steps[..n][..i] == steps[..i] && steps[..n][i] == steps[i] {
    }
  }

  lemma {:induction false} CompleteParts(steps: seq<Step>)
    requires CompleteRun(steps)
    ensures PartTotal(steps, Unused) == PartTotal(steps, Reopened) == 0 && PartTotal(steps, Refinished) >= 0
    ensures PartTotal(steps, Refinished) == 0 <==> NoneFinishedAgain(steps)
    ensures TokensAtLeast(Run(steps).monitor.retrieve, 1)
  {
    if steps != [] {
      var n := |steps| - 1;
      CompletePrefix(steps);
      CompleteParts(steps[..n]);
      NoneFinishedAgainNext(steps);
      StepKeepsTokens(Run(steps[..n]), steps[n], 1);
      CompleteStepParts(Run(steps[..n]), steps[n]);
      hide PartBy, Complete, CompleteRun, FinishesAgain, NoneFinishedAgain, Next;
    }
  }

  lemma CompleteStepParts(s: System, step: Step)
    requires Complete(s, step) && TokensAtLeast(s.monitor.retrieve, 1)
    ensures PartBy(s, step, Unused) == PartBy(s, step, Reopened) == 0 && PartBy(s, step, Refinished) >= 0
    ensures PartBy(s, step, Refinished) == 0 <==> !FinishesAgain(s, step)
  {
  }

  /** With complete finishes, the hits exceed what was asked for by the requests that no
      longer wait exactly by what was finished again; so once nothing is outstanding
      they stay within the tokens requested exactly when none was finished again. */
  lemma CompleteFinishesExactly(steps: seq<Step>)
    requires CompleteRun(steps)
    ensures Total(steps, HitTokens) == Total(steps, RequestedTokens) - OutstandingAfter(steps) + PartTotal(steps, Refinished)
    ensures PartTotal(steps, Refinished) == 0 <==> NoneFinishedAgain(steps)
    ensures Total(steps, HitTokens) <= Total(steps, RequestedTokens) - OutstandingAfter(steps) <==> NoneFinishedAgain(steps)
  {
    HitsAccount(steps);
    CompleteParts(steps);
  }

  function FinishedTwice(n: int, t0: real, t1: real, t2: real): seq<Step> {
    [Do(RetrieveRequest(n, t0)), Do(RetrieveFinished(0, n, t1)), Do(RetrieveFinished(0, n, t2))]
  }

  /** Whatever was asked for, a request finished twice in full before a drain counts its
      hits twice. */
  lemma FinishingTwiceExceedsRequested(n: int, t0: real, t1: real, t2: real)
    requires n > 0 && t1 != 0.0 && t2 != 0.0
    ensures CompleteRun(FinishedTwice(n, t0, t1, t2)) && !NoneFinishedAgain(FinishedTwice(n, t0, t1, t2))
    ensures Total(FinishedTwice(n, t0, t1, t2), HitTokens) == 2 * n
    ensures Total(FinishedTwice(n, t0, t1, t2), RequestedTokens) == n
  {
    var steps := FinishedTwice(n, t0, t1, t2);
    var open := RetrieveStats(n, 0, 0, t0, 0.0);
    hide Run, Total, Start, Next, Added, Complete, FinishesAgain;
    NothingRun();
    FirstRequest(Start(), n, t0);
    Finish(Run(steps[..1]), open, n, t1);
    Finish(Run(steps[..2]), open.(localHitTokens := n, endTime := t1), n, t2);
    RunPrefix(steps, 0);
    RunPrefix(steps, 1);
    RunPrefix(steps, 2);
    assert steps[..0] == [] && steps[..3] == steps;
  }

  function OneOpenOneTwice(n: int, t0: real, t1: real, t2: real): seq<Step> {
    [Do(RetrieveRequest(n, t0)), Do(RetrieveRequest(n, t0)), Do(RetrieveFinished(0, n, t1)), Do(RetrieveFinished(0, n, t2))]
  }

  /** An open request can hide a second finish in the totals: the hits stay within the
      tokens requested although one request was finished again. */
  lemma OpenRequestHidesSecondFinish(n: int, t0: real, t1: real, t2: real)
    requires n > 0 && t1 != 0.0 && t2 != 0.0
    ensures CompleteRun(OneOpenOneTwice(n, t0, t1, t2)) && !NoneFinishedAgain(OneOpenOneTwice(n, t0, t1, t2))
    ensures Total(OneOpenOneTwice(n, t0, t1, t2), HitTokens) == 2 * n
    ensures Total(OneOpenOneTwice(n, t0, t1, t2), RequestedTokens) == 2 * n
  {
    var steps := OneOpenOneTwice(n, t0, t1, t2);
    var open := RetrieveStats(n, 0, 0, t0, 0.0);
    hide Run, Total, Start, Next, Added, Complete, FinishesAgain, CompleteRun, NoneFinishedAgain;
    NothingRun();
    assert steps[..0] == [] && steps[..4] == steps;
    RunPrefix(steps, 0);
    FirstRequest(Start(), n, t0);
    RunPrefix(steps, 1);
    SecondRequest(Run(steps[..1]), open, n, t0);
    RunPrefix(steps, 2);
    Finish(Run(steps[..2]), open, n, t1);
    RunPrefix(steps, 3);
    Finish(Run(steps[..3]), open.(localHitTokens := n, endTime := t1), n, t2);
    FourSteps(steps);
  }

  lemma FourSteps(steps: seq<Step>)
    requires |steps| == 4
    requires Complete(Run(steps[..0]), steps[0]) && Complete(Run(steps[..1]), steps[1])
    requires Complete(Run(steps[..2]), steps[2]) && Complete(Run(steps[..3]), steps[3])
    requires FinishesAgain(Run(steps[..3]), steps[3])
    ensures CompleteRun(steps) && !NoneFinishedAgain(steps)
  {
    hide Run, Complete, FinishesAgain;
  }

  lemma NothingRun()
    ensures Run([]) == Start() && Total([], HitTokens) == 0 && Total([], RequestedTokens) == 0
    ensures Start().monitor.retrieve == map[] && Start().monitor.nextRetrieve == 0
  {
    hide Next, Added;
  }

  lemma RunPrefix(steps: seq<Step>, i: nat)
    requires i < |steps|
    ensures Run(steps[..i + 1]) == Next(Run(steps[..i]), steps[i])
    ensures forall kind :: Total(steps[..i + 1], kind) == Total(steps[..i], kind) + Added(Run(steps[..i]), steps[i], kind)
  {
    assert steps[..i + 1][..i] == steps[..i];
  }

  lemma FirstRequest(s: System, n: int, t: real)
    requires s.monitor.retrieve == map[] && s.monitor.nextRetrieve == 0
    ensures 0 in Next(s, Do(RetrieveRequest(n, t))).monitor.retrieve
    ensures Next(s, Do(RetrieveRequest(n, t))).monitor.retrieve[0] == RetrieveStats(n, 0, 0, t, 0.0)
    ensures Added(s, Do(RetrieveRequest(n, t)), RequestedTokens) == n
    ensures Added(s, Do(RetrieveRequest(n, t)), HitTokens) == 0
    ensures Next(s, Do(RetrieveRequest(n, t))).monitor.nextRetrieve == 1
    ensures n > 0 ==> Complete(s, Do(RetrieveRequest(n, t)))
  {
  }

  lemma SecondRequest(s: System, r: RequestStats, n: int, t: real)
    requires 0 in s.monitor.retrieve && s.monitor.retrieve[0] == r && s.monitor.nextRetrieve == 1
    ensures var step := Do(RetrieveRequest(n, t));
            && 0 in Next(s, step).monitor.retrieve && Next(s, step).monitor.retrieve[0] == r
            && Added(s, step, RequestedTokens) == n && Added(s, step, HitTokens) == 0
            && (n > 0 ==> Complete(s, step))
  {
  }

  lemma Finish(s: System, r: RequestStats, n: int, t: real)
    ensures 0 in s.monitor.retrieve && s.monitor.retrieve[0] == r && r.RetrieveStats? ==>
      var step := Do(RetrieveFinished(0, n, t));
      && 0 in Next(s, step).monitor.retrieve
      && Next(s, step).monitor.retrieve[0] == r.(localHitTokens := n, endTime := t)
      && Added(s, step, RequestedTokens) == 0 && Added(s, step, HitTokens) == n
      && (n == r.numTokens && t != 0.0 ==> Complete(s, step))
      && (FinishesAgain(s, step) <==> r.Finished())
  {
  }
}
