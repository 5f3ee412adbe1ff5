/**
 Weighted build times: a sweep over the start and stop events of build steps that
 shares every stretch of time among the steps running in it.  Times are exact reals.
 */
module BuildTime {
  import opened Sets

  class Target {
    const start: real
    const end: real
    var weightedDuration: real

    constructor (start: real, end: real)
      ensures this.start == start && this.end == end && weightedDuration == 0.0
    {
      this.start, this.end := start, end;
      weightedDuration := 0.0;
    }

    function Duration(): real {
      end - start
    }
  }

  datatype Event = Event(time: real, stop: bool, target: Target)

  // ------------------------------------------------------------------- sorting

  /** The sort key is the pair of time and action name; "start" sorts before "stop". */
  predicate KeyLeq(a: Event, b: Event) {
    a.time < b.time || (a.time == b.time && (!a.stop || b.stop))
  }

  predicate SortedByKey(es: seq<Event>) {
    forall i, j :: 0 <= i < j < |es| ==> KeyLeq(es[i], es[j])
  }

  function Insert(e: Event, es: seq<Event>): (r: seq<Event>)
    ensures multiset(r) == multiset(es) + multiset{e}
  {
    if es == [] || KeyLeq(es[|es| - 1], e) then es + [e]
    else
      assert es == es[..|es| - 1] + [es[|es| - 1]];
      Insert(e, es[..|es| - 1]) + [es[|es| - 1]]
  }

  lemma {:induction false} InsertSorted(e: Event, es: seq<Event>)
    requires SortedByKey(es)
    ensures SortedByKey(Insert(e, es))
  {
    if es != [] && !KeyLeq(es[|es| - 1], e) {
      var init, last := es[..|es| - 1], es[|es| - 1];
      InsertSorted(e, init);
      var r := Insert(e, init);
      forall i | 0 <= i < |r| ensures KeyLeq(r[i], last) {
        assert r[i] in multiset(r);
        assert r[i] == e || r[i] in init;
      }
    }
  }

  /** Stable sort by key. */
  function Sort(es: seq<Event>): (r: seq<Event>)
    ensures multiset(r) == multiset(es)
  {
    if es == [] then []
    else
      assert es == es[..|es| - 1] + [es[|es| - 1]];
      Insert(es[|es| - 1], Sort(es[..|es| - 1]))
  }

  lemma {:induction false} SortIsSorted(es: seq<Event>)
    ensures SortedByKey(Sort(es))
  {
    if es != [] {
      SortIsSorted(es[..|es| - 1]);
      InsertSorted(es[|es| - 1], Sort(es[..|es| - 1]));
    }
  }

  function Events(entries: seq<Target>): (es: seq<Event>)
    ensures |es| == 2 * |entries|
  {
    if entries == [] then []
    else
      var t := entries[|entries| - 1];
      Events(entries[..|entries| - 1]) + [Event(t.start, false, t), Event(t.end, true, t)]
  }

  // ------------------------------------------------------- what the sweep is for

  /** The tasks running all through the stretch from a to b. */
  ghost function Active(ts: set<Target>, a: real, b: real): set<Target> {
    set t | t in ts && t.start <= a && b <= t.end
  }

  /** The share of one task in the stretch from a to b. */
  ghost function ShareIn(ts: set<Target>, t: Target, a: real, b: real): real {
    if a < b && t in Active(ts, a, b) then (b - a) / (|Active(ts, a, b)| as real) else 0.0
  }

  /** The share of one task in the stretches between the first k times. */
  ghost function Share(ts: set<Target>, times: seq<real>, t: Target, k: nat): real
    requires k <= |times|
  {
    if k <= 1 then 0.0
    else Share(ts, times, t, k - 1) + ShareIn(ts, t, times[k - 2], times[k - 1])
  }

  /** The time, between the first k times, in which at least one task was running. */
  ghost function Busy(ts: set<Target>, times: seq<real>, k: nat): real
    requires k <= |times|
  {
    if k <= 1 then 0.0
    else
      var a, b := times[k - 2], times[k - 1];
      Busy(ts, times, k - 1) + (if Active(ts, a, b) != {} then b - a else 0.0)
  }

  /** The time in which none was. */
  ghost function Idle(ts: set<Target>, times: seq<real>, k: nat): real
    requires k <= |times|
  {
    if k <= 1 then 0.0
    else
      var a, b := times[k - 2], times[k - 1];
      Idle(ts, times, k - 1) + (if Active(ts, a, b) == {} then b - a else 0.0)
  }

  ghost predicate Ascending(times: seq<real>) {
    forall i, j :: 0 <= i <= j < |times| ==> times[i] <= times[j]
  }

  // ------------------------------------------- each share is at most the duration

  ghost function Clip(t: Target, x: real): real {
    if x <= t.start then 0.0 else if x <= t.end then x - t.start else t.end - t.start
  }

  lemma ShareInBound(ts: set<Target>, t: Target, a: real, b: real)
    requires a <= b
    ensures 0.0 <= ShareIn(ts, t, a, b) <= b - a
  {
    if a < b && t in Active(ts, a, b) {
      var n := |Active(ts, a, b)|;
      assert n >= 1 by {
        assert {t} <= Active(ts, a, b);
        SubsetSize({t}, Active(ts, a, b));
      }
      DivideBound(b - a, n);
    }
  }

  lemma DivideBound(d: real, n: nat)
    requires d >= 0.0 && n >= 1
    ensures 0.0 <= d / (n as real) <= d
    ensures (n as real) * (d / (n as real)) == d
  {
    var q := d / (n as real);
    assert q * (n as real) == d;
    NonNegativeFactor(q, n as real);
    assert q * ((n - 1) as real) >= 0.0;
    assert q * (n as real) == q * ((n - 1) as real) + q;
  }

  lemma NonNegativeFactor(q: real, m: real)
    requires m > 0.0 && q * m >= 0.0
    ensures q >= 0.0
  {
  }

  lemma {:induction false} ShareBound(ts: set<Target>, times: seq<real>, t: Target, k: nat)
    requires 1 <= k <= |times| && Ascending(times)
    requires t.start <= t.end && t.start in times && t.end in times
    ensures 0.0 <= Share(ts, times, t, k) <= Clip(t, times[k - 1])
  {
    if k > 1 {
      ShareBound(ts, times, t, k - 1);
      var a, b := times[k - 2], times[k - 1];
      ShareInBound(ts, t, a, b);
      var i :| 0 <= i < |times| && times[i] == t.start;
      var j :| 0 <= j < |times| && times[j] == t.end;
      assert b <= t.start || t.start <= a;
      assert b <= t.end || t.end <= a;
    } else {
      var i :| 0 <= i < |times| && times[i] == t.start;
    }
  }

  // ------------------------------------------------- the shares add up to busy time

  ghost function SumShares(ts: set<Target>, times: seq<real>, s: set<Target>, k: nat): real
    requires k <= |times|
    decreases |s|
  {
    if s == {} then 0.0
    else
      var t :| t in s;
      Share(ts, times, t, k) + SumShares(ts, times, s - {t}, k)
  }

  lemma {:induction false} SumSharesPick(ts: set<Target>, times: seq<real>, s: set<Target>, k: nat, x: Target)
    requires k <= |times| && x in s
    ensures SumShares(ts, times, s, k) == Share(ts, times, x, k) + SumShares(ts, times, s - {x}, k)
    decreases |s|
  {
    var t :| t in s && SumShares(ts, times, s, k) == Share(ts, times, t, k) + SumShares(ts, times, s - {t}, k);
    if t != x {
      SumSharesPick(ts, times, s - {t}, k, x);
      SumSharesPick(ts, times, s - {x}, k, t);
      assert s - {t} - {x} == s - {x} - {t};
    }
  }

  /** The amount that m active tasks get, at w each. */
  ghost function Portion(m: nat, w: real): (p: real)
    ensures m == 0 ==> p == 0.0
  {
    (m as real) * w
  }

  lemma PortionNext(m: nat, w: real)
    ensures Portion(m + 1, w) == Portion(m, w) + w
  {
  }

  /** Going one time further adds the same amount for every active task. */
  lemma {:induction false} SumSharesNext(ts: set<Target>, times: seq<real>, s: set<Target>, k: nat, act: set<Target>, w: real)
    requires 1 <= k < |times| && s <= ts && times[k - 1] < times[k]
    requires forall x :: x in s ==> ShareGrows(ts, times, x, k, act, w)
    ensures SumShares(ts, times, s, k + 1) == SumShares(ts, times, s, k) + Portion(|s * act|, w)
    decreases |s|
  {
    if s == {} {
      assert s * act == {};
    } else {
      var x :| x in s;
      assert Share(ts, times, x, k + 1) == Share(ts, times, x, k) + if x in act then w else 0.0 by {
        assert ShareGrows(ts, times, x, k, act, w);
      }
      hide *;
      SumSharesPick(ts, times, s, k, x);
      SumSharesPick(ts, times, s, k + 1, x);
      SumSharesNext(ts, times, s - {x}, k, act, w);
      CountNext(s, act, x);
      PortionNext(|(s - {x}) * act|, w);
    }
  }

  lemma CountNext(s: set<Target>, act: set<Target>, x: Target)
    requires x in s
    ensures |s * act| == |(s - {x}) * act| + if x in act then 1 else 0
  {
    if x in act {
      assert s * act == (s - {x}) * act + {x};
    } else {
      assert s * act == (s - {x}) * act;
    }
  }

  ghost predicate ShareGrows(ts: set<Target>, times: seq<real>, x: Target, k: nat, act: set<Target>, w: real)
    requires k < |times|
  {
    Share(ts, times, x, k + 1) == Share(ts, times, x, k) + if x in act then w else 0.0
  }

  lemma ShareNext(ts: set<Target>, times: seq<real>, x: Target, k: nat, act: set<Target>, w: real)
    requires 1 <= k < |times| && x in ts && times[k - 1] < times[k]
    requires act == Active(ts, times[k - 1], times[k])
    requires act != {} ==> w == (times[k] - times[k - 1]) / (|act| as real)
    ensures ShareGrows(ts, times, x, k, act, w)
  {
  }

  lemma SumSharesSame(ts: set<Target>, times: seq<real>, s: set<Target>, k: nat)
    requires 1 <= k < |times| && s <= ts && times[k - 1] == times[k]
    ensures SumShares(ts, times, s, k + 1) == SumShares(ts, times, s, k)
    decreases |s|
  {
    if s != {} {
      var x :| x in s;
      SumSharesPick(ts, times, s, k, x);
      SumSharesPick(ts, times, s, k + 1, x);
      SumSharesSame(ts, times, s - {x}, k);
    }
  }

  lemma SumSharesZero(ts: set<Target>, times: seq<real>, s: set<Target>, k: nat)
    requires k <= 1 && k <= |times|
    ensures SumShares(ts, times, s, k) == 0.0
    decreases |s|
  {
    if s != {} {
      var x :| x in s;
      SumSharesPick(ts, times, s, k, x);
      SumSharesZero(ts, times, s - {x}, k);
    }
  }

  lemma PortionAll(n: nat, d: real)
    requires n >= 1 && d >= 0.0
    ensures Portion(n, d / (n as real)) == d
  {
    DivideBound(d, n);
  }

  lemma SumSharesStretch(ts: set<Target>, times: seq<real>, k: nat)
    requires 1 <= k < |times| && times[k - 1] <= times[k]
    ensures SumShares(ts, times, ts, k + 1) ==
            SumShares(ts, times, ts, k) + (if Active(ts, times[k - 1], times[k]) != {} then times[k] - times[k - 1] else 0.0)
  {
    var a, b := times[k - 1], times[k];
    var act := Active(ts, a, b);
    if a == b {
      SumSharesSame(ts, times, ts, k);
    } else {
      var w := if act != {} then (b - a) / (|act| as real) else 0.0;
      forall x | x in ts ensures ShareGrows(ts, times, x, k, act, w) {
        ShareNext(ts, times, x, k, act, w);
      }
      hide SumShares, Share, ShareGrows;
      SumSharesNext(ts, times, ts, k, act, w);
      assert ts * act == act;
      if act != {} {
        PortionAll(|act|, b - a);
      }
    }
  }

  /** Counting the shared time task by task or stretch by stretch gives the same. */
  lemma {:induction false} SharesSumToBusy(ts: set<Target>, times: seq<real>, k: nat)
    requires k <= |times| && Ascending(times)
    ensures SumShares(ts, times, ts, k) == Busy(ts, times, k)
  {
    if k <= 1 {
      SumSharesZero(ts, times, ts, k);
    } else {
      SharesSumToBusy(ts, times, k - 1);
      SumSharesStretch(ts, times, k - 1);
    }
  }

  lemma {:induction false} BusyAndIdle(ts: set<Target>, times: seq<real>, k: nat)
    requires 1 <= k <= |times| && Ascending(times)
    ensures Busy(ts, times, k) + Idle(ts, times, k) == times[k - 1] - times[0]
    ensures Busy(ts, times, k) >= 0.0 && Idle(ts, times, k) >= 0.0
  {
    if k > 1 {
      BusyAndIdle(ts, times, k - 1);
    }
  }

  // ---------------------------------------------------------------- the schedule

  predicate Distinct(entries: seq<Target>) {
    forall i, j :: 0 <= i < j < |entries| ==> entries[i] != entries[j]
  }

  ghost function Targets(entries: seq<Target>): set<Target> {
    set t | t in entries
  }

  function StartOf(t: Target): Event {
    Event(t.start, false, t)
  }

  function StopOf(t: Target): Event {
    Event(t.end, true, t)
  }

  /** es lists the start and the stop of every task, each once, in order of time and
      a start before its stop; first and last say where. */
  ghost predicate Schedule(ts: set<Target>, es: seq<Event>, first: map<Target, nat>, last: map<Target, nat>) {
    && first.Keys == ts && last.Keys == ts
    && (forall t :: t in ts ==>
          first[t] < last[t] < |es| && es[first[t]] == StartOf(t) && es[last[t]] == StopOf(t) && t.start <= t.end)
    && (forall k :: 0 <= k < |es| ==>
          es[k].target in ts && k == if es[k].stop then last[es[k].target] else first[es[k].target])
    && Ascending(Times(es))
  }

  lemma {:induction false} EventsOnce(entries: seq<Target>, e: Event)
    requires Distinct(entries)
    ensures multiset(Events(entries))[e] ==
            if e.target in entries && (e == StartOf(e.target) || e == StopOf(e.target)) then 1 else 0
  {
    if entries != [] {
      var init, t := entries[..|entries| - 1], entries[|entries| - 1];
      EventsOnce(init, e);
      assert entries == init + [t];
      assert t !in init;
    }
  }

  lemma NoRepeats(es: seq<Event>)
    requires forall e :: multiset(es)[e] <= 1
    ensures forall i, j :: 0 <= i < j < |es| ==> es[i] != es[j]
  {
    forall i, j | 0 <= i < j < |es| ensures es[i] != es[j] {
      assert es == es[..j] + es[j..];
      assert es[i] in es[..j] && es[j] in es[j..];
      assert multiset(es)[es[i]] == multiset(es[..j])[es[i]] + multiset(es[j..])[es[i]];
    }
  }

  ghost function Times(es: seq<Event>): (times: seq<real>)
    ensures |times| == |es| && forall i :: 0 <= i < |es| ==> times[i] == es[i].time
  {
    seq(|es|, i requires 0 <= i < |es| => es[i].time)
  }

  lemma SortedTimesAscend(es: seq<Event>)
    requires SortedByKey(es)
    ensures Ascending(Times(es))
  {
  }

  lemma PlaceOf(entries: seq<Target>, es: seq<Event>, e: Event) returns (i: nat)
    requires Distinct(entries) && multiset(es) == multiset(Events(entries))
    requires e.target in entries && (e == StartOf(e.target) || e == StopOf(e.target))
    ensures i < |es| && es[i] == e
  {
    EventsOnce(entries, e);
    assert e in multiset(es);
    i :| 0 <= i < |es| && es[i] == e;
  }

  lemma PlacesOf(entries: seq<Target>, es: seq<Event>) returns (first: map<Target, nat>, last: map<Target, nat>)
    requires Distinct(entries) && multiset(es) == multiset(Events(entries))
    ensures first.Keys == Targets(entries) && last.Keys == Targets(entries)
    ensures forall t :: t in Targets(entries) ==>
      first[t] < |es| && es[first[t]] == StartOf(t) && last[t] < |es| && es[last[t]] == StopOf(t)
  {
    var ts := Targets(entries);
    forall t | t in ts
      ensures exists i: nat :: i < |es| && es[i] == StartOf(t)
      ensures exists i: nat :: i < |es| && es[i] == StopOf(t)
    {
      var i := PlaceOf(entries, es, StartOf(t));
      var j := PlaceOf(entries, es, StopOf(t));
    }
    first := map t | t in ts :: var i: nat :| i < |es| && es[i] == StartOf(t); i;
    last := map t | t in ts :: var i: nat :| i < |es| && es[i] == StopOf(t); i;
  }

  lemma EventsBelong(entries: seq<Target>, es: seq<Event>)
    requires Distinct(entries) && multiset(es) == multiset(Events(entries))
    ensures forall i, j :: 0 <= i < j < |es| ==> es[i] != es[j]
    ensures forall k :: 0 <= k < |es| ==>
      es[k].target in Targets(entries) && es[k] == if es[k].stop then StopOf(es[k].target) else StartOf(es[k].target)
  {
    forall e ensures multiset(es)[e] <= 1 {
      EventsOnce(entries, e);
    }
    NoRepeats(es);
    forall k | 0 <= k < |es|
      ensures es[k].target in entries && (es[k] == StartOf(es[k].target) || es[k] == StopOf(es[k].target))
    {
      assert es[k] in multiset(es);
      EventsOnce(entries, es[k]);
    }
  }

  lemma FirstBeforeLast(es: seq<Event>, t: Target, i: nat, j: nat)
    requires SortedByKey(es) && i < |es| && j < |es| && es[i] == StartOf(t) && es[j] == StopOf(t) && t.start <= t.end
    ensures i < j
  {
    assert !KeyLeq(es[j], es[i]);
  }

  lemma SortedEventsAreASchedule(entries: seq<Target>) returns (first: map<Target, nat>, last: map<Target, nat>)
    requires Distinct(entries) && forall t :: t in entries ==> t.start <= t.end
    ensures Schedule(Targets(entries), Sort(Events(entries)), first, last)
  {
    var ts, es := Targets(entries), Sort(Events(entries));
    SortIsSorted(Events(entries));
    SortedTimesAscend(es);
    EventsBelong(entries, es);
    first, last := PlacesOf(entries, es);
    forall t | t in ts ensures first[t] < last[t] {
      FirstBeforeLast(es, t, first[t], last[t]);
    }
    assert Schedule(ts, es, first, last) by {
      forall k | 0 <= k < |es|
        ensures es[k].target in ts && k == if es[k].stop then last[es[k].target] else first[es[k].target]
      {
        var t := es[k].target;
        var m := if es[k].stop then last[t] else first[t];
        assert es[m] == es[k];
      }
    }
  }

  ghost function Stopped(ts: set<Target>, last: map<Target, nat>, k: nat): set<Target>
    requires last.Keys == ts
  {
    set t | t in ts && last[t] < k
  }

  ghost function Running(ts: set<Target>, first: map<Target, nat>, last: map<Target, nat>, k: nat): set<Target>
    requires first.Keys == ts && last.Keys == ts
  {
    set t | t in ts && first[t] < k <= last[t]
  }

  lemma RunningIsActive(ts: set<Target>, es: seq<Event>, first: map<Target, nat>, last: map<Target, nat>, k: nat)
    requires Schedule(ts, es, first, last) && 1 <= k < |es| && es[k - 1].time < es[k].time
    ensures Running(ts, first, last, k) == Active(ts, es[k - 1].time, es[k].time)
  {
    forall t | t in ts
      ensures first[t] < k <==> t.start <= es[k - 1].time
      ensures k <= last[t] <==> es[k].time <= t.end
    {
      assert Times(es)[first[t]] == t.start && Times(es)[last[t]] == t.end;
    }
  }

  lemma ShareStretch(ts: set<Target>, es: seq<Event>, first: map<Target, nat>, last: map<Target, nat>, k: nat, t: Target)
    requires Schedule(ts, es, first, last) && 1 <= k < |es| && t in ts
    ensures ShareIn(ts, t, es[k - 1].time, es[k].time) ==
            if t in Running(ts, first, last, k) then Added(es[k].time, es[k - 1].time, |Running(ts, first, last, k)|) else 0.0
  {
    assert Times(es)[k - 1] <= Times(es)[k];
    var run := Running(ts, first, last, k);
    if es[k - 1].time < es[k].time {
      RunningIsActive(ts, es, first, last, k);
      if t in run {
        SubsetSize({t}, run);
      }
    } else if |run| >= 1 {
      assert 0.0 / (|run| as real) == 0.0;
    }
  }

  /** What the event loop adds to the running total before it handles an event. */
  function Added(time: real, lastTime: real, running: nat): real {
    if running > 0 then (time - lastTime) / (running as real) else 0.0
  }

  /** The time handled before event k. */
  function TimeBefore(es: seq<Event>, k: nat): real
    requires k <= |es| && es != []
  {
    if k == 0 then es[0].time else es[k - 1].time
  }

  /** What one more event adds to the share of a task: its part of the stretch before
      the event while it is running, nothing otherwise. */
  lemma ShareOfNext(ts: set<Target>, es: seq<Event>, first: map<Target, nat>, last: map<Target, nat>, k: nat, t: Target)
    requires Schedule(ts, es, first, last) && k < |es| && t in ts
    ensures Share(ts, Times(es), t, k + 1) == Share(ts, Times(es), t, k) +
            if t in Running(ts, first, last, k) then Added(es[k].time, TimeBefore(es, k), |Running(ts, first, last, k)|) else 0.0
  {
    if k >= 1 {
      ShareStretch(ts, es, first, last, k, t);
    }
  }

  /** Before its start a task has no share. */
  lemma {:induction false} NoShareBefore(ts: set<Target>, times: seq<real>, t: Target, k: nat)
    requires k <= |times| && Ascending(times) && (k >= 1 ==> times[k - 1] <= t.start)
    ensures Share(ts, times, t, k) == 0.0
  {
    if k >= 2 {
      assert times[k - 2] <= times[k - 1];
      NoShareBefore(ts, times, t, k - 1);
    }
  }

  lemma {:induction false} SumSharesFrozen(ts: set<Target>, times: seq<real>, s: set<Target>, k: nat)
    requires k < |times|
    requires forall t :: t in s ==> Share(ts, times, t, k + 1) == Share(ts, times, t, k)
    ensures SumShares(ts, times, s, k + 1) == SumShares(ts, times, s, k)
    decreases |s|
  {
    if s != {} {
      var x :| x in s;
      SumSharesPick(ts, times, s, k, x);
      SumSharesPick(ts, times, s, k + 1, x);
      SumSharesFrozen(ts, times, s - {x}, k);
    }
  }

  lemma OneMoreEvent(ts: set<Target>, es: seq<Event>, first: map<Target, nat>, last: map<Target, nat>, k: nat)
    requires Schedule(ts, es, first, last) && k < |es|
    ensures
      var t := es[k].target;
      if es[k].stop then
        && Stopped(ts, last, k + 1) == Stopped(ts, last, k) + {t} && t !in Stopped(ts, last, k)
        && Running(ts, first, last, k + 1) == Running(ts, first, last, k) - {t} && t in Running(ts, first, last, k)
      else
        && Stopped(ts, last, k + 1) == Stopped(ts, last, k) && t !in Stopped(ts, last, k)
        && Running(ts, first, last, k + 1) == Running(ts, first, last, k) + {t} && t !in Running(ts, first, last, k)
  {
    var t := es[k].target;
    assert forall u :: u in ts && u != t ==> first[u] != k && last[u] != k;
  }

  // ------------------------------------------------------------------- the sweep

  /** What event k does to the running and to the stopped tasks, and what the stretch
      before it adds to every share. */
  ghost predicate StepOk(ts: set<Target>, es: seq<Event>, k: nat,
                         run: set<Target>, done: set<Target>, run': set<Target>, done': set<Target>)
    requires k < |es|
  {
    var t := es[k].target;
    && t in ts && run <= ts && done <= ts && run !! done
    && t !in done
    && (if es[k].stop
        then t in run && run' == run - {t} && done' == done + {t}
        else t !in run && run' == run + {t} && done' == done && Share(ts, Times(es), t, k + 1) == 0.0)
    && SharesGrow(ts, Times(es), k, run, Added(es[k].time, TimeBefore(es, k), |run|))
  }

  ghost predicate SharesGrow(ts: set<Target>, times: seq<real>, k: nat, run: set<Target>, w: real)
    requires k < |times|
  {
    forall t :: t in ts ==> ShareAfter(ts, times, k, t, if t in run then w else 0.0)
  }

  ghost predicate ShareAfter(ts: set<Target>, times: seq<real>, k: nat, t: Target, w: real)
    requires k < |times|
  {
    Share(ts, times, t, k + 1) == Share(ts, times, t, k) + w
  }

  /** The running and the stopped tasks before every event. */
  ghost predicate Steps(ts: set<Target>, es: seq<Event>, runs: seq<set<Target>>, dones: seq<set<Target>>) {
    && |runs| == |dones| == |es| + 1
    && runs[0] == {} && dones[0] == {} && runs[|es|] == {} && dones[|es|] == ts
    && forall k :: 0 <= k < |es| ==> StepOk(ts, es, k, runs[k], dones[k], runs[k + 1], dones[k + 1])
  }

  lemma ScheduleGrows(ts: set<Target>, es: seq<Event>, first: map<Target, nat>, last: map<Target, nat>, k: nat, w: real)
    requires Schedule(ts, es, first, last) && k < |es|
    requires w == Added(es[k].time, TimeBefore(es, k), |Running(ts, first, last, k)|)
    ensures SharesGrow(ts, Times(es), k, Running(ts, first, last, k), w)
  {
    forall t | t in ts
      ensures ShareAfter(ts, Times(es), k, t, if t in Running(ts, first, last, k) then w else 0.0)
    {
      ShareOfNext(ts, es, first, last, k, t);
    }
  }

  lemma StartTime(ts: set<Target>, es: seq<Event>, first: map<Target, nat>, last: map<Target, nat>, k: nat)
    requires Schedule(ts, es, first, last) && k < |es| && !es[k].stop
    ensures Ascending(Times(es)) && Times(es)[k] == es[k].target.start
  {
    hide Ascending;
  }

  lemma StartsAtZero(ts: set<Target>, es: seq<Event>, first: map<Target, nat>, last: map<Target, nat>, k: nat)
    requires Schedule(ts, es, first, last) && k < |es| && !es[k].stop
    ensures Share(ts, Times(es), es[k].target, k + 1) == 0.0
  {
    StartTime(ts, es, first, last, k);
    hide *;
    NoShareBefore(ts, Times(es), es[k].target, k + 1);
  }

  lemma ScheduleStep(ts: set<Target>, es: seq<Event>, first: map<Target, nat>, last: map<Target, nat>, k: nat)
    requires Schedule(ts, es, first, last) && k < |es|
    ensures StepOk(ts, es, k, Running(ts, first, last, k), Stopped(ts, last, k),
                   Running(ts, first, last, k + 1), Stopped(ts, last, k + 1))
  {
    var w := Added(es[k].time, TimeBefore(es, k), |Running(ts, first, last, k)|);
    assert SharesGrow(ts, Times(es), k, Running(ts, first, last, k), w) by {
      ScheduleGrows(ts, es, first, last, k, w);
    }
    if !es[k].stop {
      StartsAtZero(ts, es, first, last, k);
    }
    OneMoreEvent(ts, es, first, last, k);
  }

  lemma ScheduleSteps(ts: set<Target>, es: seq<Event>, first: map<Target, nat>, last: map<Target, nat>)
    returns (runs: seq<set<Target>>, dones: seq<set<Target>>)
    requires Schedule(ts, es, first, last)
    ensures Steps(ts, es, runs, dones)
  {
    runs := seq(|es| + 1, k requires 0 <= k => Running(ts, first, last, k));
    dones := seq(|es| + 1, k requires 0 <= k => Stopped(ts, last, k));
    NobodyAtTheEnds(ts, es, first, last);
    hide StepOk, Running, Stopped, Schedule;
    assert forall k :: 0 <= k <= |es| ==> runs[k] == Running(ts, first, last, k) && dones[k] == Stopped(ts, last, k);
    forall k | 0 <= k < |es| ensures StepOk(ts, es, k, runs[k], dones[k], runs[k + 1], dones[k + 1]) {
      hide *;
      ScheduleStep(ts, es, first, last, k);
      var k' := k + 1;
      assert runs[k'] == Running(ts, first, last, k') && dones[k'] == Stopped(ts, last, k');
    }
  }

  lemma NobodyAtTheEnds(ts: set<Target>, es: seq<Event>, first: map<Target, nat>, last: map<Target, nat>)
    requires Schedule(ts, es, first, last)
    ensures Running(ts, first, last, 0) == {} && Running(ts, first, last, |es|) == {}
    ensures Stopped(ts, last, 0) == {} && Stopped(ts, last, |es|) == ts
  {
  }

  /** The books of the sweep: who is running and with which total they started, what
      the stopped ones got, and what that adds up to. */
  ghost predicate Books(ts: set<Target>, times: seq<real>, k: nat, run: set<Target>, done: set<Target>,
                        lastWeighted: real, running: map<Target, real>, got: map<Target, real>, total: real)
    requires k <= |times|
  {
    && running.Keys == run && got.Keys == done
    && (forall t :: t in run ==> lastWeighted - running[t] == Share(ts, times, t, k))
    && (forall t :: t in done ==> got[t] == Share(ts, times, t, k))
    && total == SumShares(ts, times, done, k)
  }

  lemma BooksStretch(ts: set<Target>, times: seq<real>, k: nat, run: set<Target>, done: set<Target>,
                     lastWeighted: real, running: map<Target, real>, got: map<Target, real>, total: real, w: real)
    requires k < |times| && Books(ts, times, k, run, done, lastWeighted, running, got, total)
    requires run <= ts && done <= ts && run !! done
    requires SharesGrow(ts, times, k, run, w)
    ensures Books(ts, times, k + 1, run, done, lastWeighted + w, running, got, total)
  {
    SumSharesFrozen(ts, times, done, k);
  }

  lemma BooksStart(ts: set<Target>, times: seq<real>, k: nat, run: set<Target>, done: set<Target>,
                   lastWeighted: real, running: map<Target, real>, got: map<Target, real>, total: real, t: Target)
    requires k <= |times| && Books(ts, times, k, run, done, lastWeighted, running, got, total)
    requires t !in run && Share(ts, times, t, k) == 0.0
    ensures Books(ts, times, k, run + {t}, done, lastWeighted, running[t := lastWeighted], got, total)
  {
  }

  lemma BooksStop(ts: set<Target>, times: seq<real>, k: nat, run: set<Target>, done: set<Target>,
                  lastWeighted: real, running: map<Target, real>, got: map<Target, real>, total: real, t: Target)
    requires k <= |times| && Books(ts, times, k, run, done, lastWeighted, running, got, total)
    requires t in run && t !in done
    ensures var w := lastWeighted - running[t];
            Books(ts, times, k, run - {t}, done + {t}, lastWeighted, running - {t}, got[t := w], total + w)
  {
    SumSharesPick(ts, times, done + {t}, k, t);
    assert done + {t} - {t} == done;
  }

  /** At the stop of some task its start has not been seen. */
  ghost predicate Misordered(es: seq<Event>, bad: nat) {
    bad < |es| && es[bad].stop && forall i :: 0 <= i < bad && es[i].target == es[bad].target ==> es[i].stop
  }

  ghost predicate Started(es: seq<Event>, k: nat, t: Target) {
    exists i :: 0 <= i < k && i < |es| && !es[i].stop && es[i].target == t
  }

  /** The event loop. ok is false where a stop finds its task not running, which happens
      exactly where its stop comes before its start; otherwise nothing is running at the
      end. */
  method Sweep(ghost ts: set<Target>, es: seq<Event>, ghost ordered: bool, ghost bad: nat,
               ghost runs: seq<set<Target>>, ghost dones: seq<set<Target>>)
    returns (ok: bool, weightedTotal: real)
    requires es != [] && forall k :: 0 <= k < |es| ==> es[k].target in ts
    requires if ordered then Steps(ts, es, runs, dones) else Misordered(es, bad)
    modifies ts
    ensures ok <==> ordered
    ensures ok ==> forall t :: t in ts ==> t.weightedDuration == Share(ts, Times(es), t, |es|)
    ensures ok ==> weightedTotal == SumShares(ts, Times(es), ts, |es|)
  {
    hide Share, SumShares, SharesGrow;
    weightedTotal := 0.0;
    var runningTasks: map<Target, real> := map[];
    var lastTime := es[0].time;
    var lastWeightedTime := 0.0;
    ghost var times := Times(es);
    ghost var got: map<Target, real> := map[];
    if ordered {
      BooksOpen(ts, times);
    }
    for k := 0 to |es|
      invariant lastTime == TimeBefore(es, k)
      invariant ordered ==> Books(ts, times, k, runs[k], dones[k], lastWeightedTime, runningTasks, got, weightedTotal)
      invariant ordered ==> forall t :: t in got ==> t in ts && t.weightedDuration == got[t]
      invariant !ordered ==> k <= bad && forall t :: t in runningTasks ==> Started(es, k, t)
    {
      var time, stop, target := es[k].time, es[k].stop, es[k].target;
      var numRunning := |runningTasks|;
      var added := Added(time, lastTime, numRunning);
      if ordered {
        assert StepOk(ts, es, k, runs[k], dones[k], runs[k + 1], dones[k + 1]);
        assert numRunning == |runningTasks.Keys| == |runs[k]|;
        BooksStretch(ts, times, k, runs[k], dones[k], lastWeightedTime, runningTasks, got, weightedTotal, added);
      }
      lastWeightedTime := lastWeightedTime + added;
      if !stop {
        if ordered {
          BooksStart(ts, times, k + 1, runs[k], dones[k], lastWeightedTime, runningTasks, got, weightedTotal, target);
        }
        runningTasks := runningTasks[target := lastWeightedTime];
      }
      if stop {
        if target !in runningTasks {
          return false, weightedTotal;
        }
        if ordered {
          BooksStop(ts, times, k + 1, runs[k], dones[k], lastWeightedTime, runningTasks, got, weightedTotal, target);
        }
        var weightedDuration := lastWeightedTime - runningTasks[target];
        target.weightedDuration := weightedDuration;
        got := got[target := weightedDuration];
        weightedTotal := weightedTotal + weightedDuration;
        runningTasks := runningTasks - {target};
      }
      lastTime := time;
      if !ordered {
        StartedMore(es, k);
      }
    }
    assert |runningTasks| == 0;
    ok := true;
  }

  lemma BooksOpen(ts: set<Target>, times: seq<real>)
    ensures Books(ts, times, 0, {}, {}, 0.0, map[], map[], 0.0)
  {
  }

  lemma StartedMore(es: seq<Event>, k: nat)
    requires k < |es|
    ensures forall t :: Started(es, k, t) ==> Started(es, k + 1, t)
    ensures !es[k].stop ==> Started(es, k + 1, es[k].target)
  {
  }

  // ------------------------------------------------------------------- the summary

  ghost predicate IsLeast(x: real, entries: seq<Target>) {
    (exists t :: t in entries && t.start == x) && forall t :: t in entries ==> x <= t.start
  }

  ghost predicate IsGreatest(x: real, entries: seq<Target>) {
    (exists t :: t in entries && t.end == x) && forall t :: t in entries ==> t.end <= x
  }

  ghost function TotalDuration(entries: seq<Target>): real {
    if entries == [] then 0.0
    else TotalDuration(entries[..|entries| - 1]) + (entries[|entries| - 1].end - entries[|entries| - 1].start)
  }

  ghost predicate Ordered(entries: seq<Target>) {
    forall t :: t in entries ==> t.start <= t.end
  }

  /** The numbers behind the summary, exactly where there is a task and none ends before
      it starts; otherwise the source raises. Every task gets its share, which is between
      zero and its duration; the shares add up to the time at least one task was running;
      and the build length, for a log with non-negative times, is that time and the
      idle time together. */
  method SummarizeEntries(entries: seq<Target>) returns (ok: bool, length: real, totalCpuTime: real, weightedTotal: real)
    requires Distinct(entries)
    modifies entries
    ensures ok <==> entries != [] && Ordered(entries)
    ensures ok ==>
      var ts, times := Targets(entries), Times(Sort(Events(entries)));
      && (forall t :: t in entries ==> t.weightedDuration == Share(ts, times, t, |times|))
      && (forall t :: t in entries ==> 0.0 <= t.weightedDuration <= t.end - t.start)
      && weightedTotal == SumShares(ts, times, ts, |times|) == Busy(ts, times, |times|)
      && (NonNegative(entries) ==> length - weightedTotal == Idle(ts, times, |times|) >= 0.0)
    ensures totalCpuTime == TotalDuration(entries)
  {
    hide Share, SumShares, Busy, Idle, Steps, Misordered, Sort, Events, TotalDuration;
    var earliest, latest;
    earliest, latest, totalCpuTime := Extent(entries);
    length := latest - earliest;
    weightedTotal := 0.0;
    var es := Sort(Events(entries));
    EventsOf(entries);
    if es == [] {
      return false, length, totalCpuTime, weightedTotal;
    }
    ghost var ts := Targets(entries);
    ghost var runs, dones, bad := [], [], 0;
    if Ordered(entries) {
      runs, dones := SortedEventsStep(entries, es);
    } else {
      bad := StopsTooEarly(entries, es);
    }
    ok, weightedTotal := Sweep(ts, es, Ordered(entries), bad, runs, dones);
    if ok {
      SharesAreBounded(entries, es);
      if NonNegative(entries) {
        IdleIsTheRest(entries, es, earliest, latest);
      }
    }
  }

  lemma EventsOf(entries: seq<Target>)
    requires Distinct(entries)
    ensures Sort(Events(entries)) == [] <==> entries == []
    ensures forall k :: 0 <= k < |Sort(Events(entries))| ==> Sort(Events(entries))[k].target in Targets(entries)
  {
    var es := Sort(Events(entries));
    assert |es| == |multiset(es)| == |multiset(Events(entries))| == |Events(entries)|;
    EventsBelong(entries, es);
  }

  lemma StopsTooEarly(entries: seq<Target>, es: seq<Event>) returns (bad: nat)
    requires Distinct(entries) && es == Sort(Events(entries)) && !Ordered(entries)
    ensures Misordered(es, bad)
  {
    var t :| t in entries && t.end < t.start;
    bad := PlaceOf(entries, es, StopOf(t));
    EventsBelong(entries, es);
    SortIsSorted(Events(entries));
    forall i | 0 <= i < bad && es[i].target == t ensures es[i].stop {
      assert KeyLeq(es[i], es[bad]);
    }
  }

  ghost predicate NonNegative(entries: seq<Target>) {
    forall t :: t in entries ==> t.start >= 0.0
  }

  /** The first loop: the extent of the build and the sum of all durations. The extent
      is right when no start is negative, since -1 stands for "none seen yet", and no
      task ends before it starts. */
  method Extent(entries: seq<Target>) returns (earliest: real, latest: real, totalCpuTime: real)
    ensures entries != [] && NonNegative(entries) && Ordered(entries) ==>
              IsLeast(earliest, entries) && IsGreatest(latest, entries)
    ensures totalCpuTime == TotalDuration(entries)
  {
    hide TotalDuration, IsLeast, IsGreatest;
    earliest, latest, totalCpuTime := -1.0, 0.0, 0.0;
    NoDuration();
    for k := 0 to |entries|
      invariant k == 0 ==> earliest == -1.0 && latest == 0.0
      invariant k > 0 && NonNegative(entries) && Ordered(entries) ==>
        earliest >= 0.0 && IsLeast(earliest, entries[..k]) && IsGreatest(latest, entries[..k])
      invariant totalCpuTime == TotalDuration(entries[..k])
    {
      var target := entries[k];
      assert entries[..k + 1] == entries[..k] + [target];
      if NonNegative(entries) && Ordered(entries) {
        ExtentNext(entries[..k], earliest, latest, target);
      }
      DurationNext(entries[..k], target);
      if earliest < 0.0 || target.start < earliest {
        earliest := target.start;
      }
      if target.end > latest {
        latest := target.end;
      }
      totalCpuTime := totalCpuTime + target.Duration();
    }
    assert entries[..|entries|] == entries;
  }

  lemma NoDuration()
    ensures TotalDuration([]) == 0.0
  {
  }

  lemma DurationNext(entries: seq<Target>, t: Target)
    ensures TotalDuration(entries + [t]) == TotalDuration(entries) + (t.end - t.start)
  {
    assert (entries + [t])[..|entries|] == entries;
  }

  lemma ExtentNext(entries: seq<Target>, earliest: real, latest: real, t: Target)
    requires 0.0 <= t.start <= t.end
    requires if entries == [] then earliest == -1.0 && latest == 0.0
             else earliest >= 0.0 && IsLeast(earliest, entries) && IsGreatest(latest, entries)
    ensures IsLeast(if earliest < 0.0 || t.start < earliest then t.start else earliest, entries + [t])
    ensures IsGreatest(if t.end > latest then t.end else latest, entries + [t])
  {
    var all := entries + [t];
    assert t in all && forall u :: u in all <==> u in entries || u == t;
  }

  lemma SortedEventsStep(entries: seq<Target>, es: seq<Event>) returns (runs: seq<set<Target>>, dones: seq<set<Target>>)
    requires entries != [] && Distinct(entries) && forall t :: t in entries ==> t.start <= t.end
    requires es == Sort(Events(entries))
    ensures es != [] && Steps(Targets(entries), es, runs, dones)
  {
    assert |es| == |multiset(es)| == |multiset(Events(entries))| == |Events(entries)|;
    var first, last := SortedEventsAreASchedule(entries);
    runs, dones := ScheduleSteps(Targets(entries), es, first, last);
  }

  lemma SharesAreBounded(entries: seq<Target>, es: seq<Event>)
    requires entries != [] && Distinct(entries) && forall t :: t in entries ==> t.start <= t.end
    requires es == Sort(Events(entries)) && es != []
    ensures var ts, times := Targets(entries), Times(es);
            && SumShares(ts, times, ts, |times|) == Busy(ts, times, |times|)
            && forall t :: t in entries ==> 0.0 <= Share(ts, times, t, |times|) <= t.end - t.start
  {
    var first, last := SortedEventsAreASchedule(entries);
    var ts, times := Targets(entries), Times(es);
    SharesSumToBusy(ts, times, |times|);
    forall t | t in entries ensures 0.0 <= Share(ts, times, t, |times|) <= t.end - t.start {
      ScheduledShare(ts, es, first, last, t);
    }
  }

  lemma ScheduledShare(ts: set<Target>, es: seq<Event>, first: map<Target, nat>, last: map<Target, nat>, t: Target)
    requires Schedule(ts, es, first, last) && t in ts && es != []
    ensures 0.0 <= Share(ts, Times(es), t, |es|) <= t.end - t.start
  {
    assert Times(es)[first[t]] == t.start && Times(es)[last[t]] == t.end;
    ShareBound(ts, Times(es), t, |es|);
  }

  lemma IdleIsTheRest(entries: seq<Target>, es: seq<Event>, lo: real, hi: real)
    requires entries != [] && Distinct(entries) && forall t :: t in entries ==> t.start <= t.end
    requires es == Sort(Events(entries)) && es != []
    requires IsLeast(lo, entries) && IsGreatest(hi, entries)
    ensures var ts, times := Targets(entries), Times(es);
            hi - lo - Busy(ts, times, |times|) == Idle(ts, times, |times|) >= 0.0
  {
    var first, last := SortedEventsAreASchedule(entries);
    BusyAndIdle(Targets(entries), Times(es), |es|);
    EndsOfSchedule(entries, es, first, last, lo, hi);
  }

  lemma EndsOfSchedule(entries: seq<Target>, es: seq<Event>, first: map<Target, nat>, last: map<Target, nat>, lo: real, hi: real)
    requires es != [] && Schedule(Targets(entries), es, first, last)
    requires IsLeast(lo, entries) && IsGreatest(hi, entries)
    ensures Times(es)[0] == lo && Times(es)[|es| - 1] == hi
  {
    FirstIsLeast(entries, es, first, last, lo);
    LastIsGreatest(entries, es, first, last, hi);
  }

  lemma FirstIsLeast(entries: seq<Target>, es: seq<Event>, first: map<Target, nat>, last: map<Target, nat>, lo: real)
    requires es != [] && Schedule(Targets(entries), es, first, last) && IsLeast(lo, entries)
    ensures Times(es)[0] == lo
  {
    var t :| t in entries && t.start == lo;
    assert Times(es)[0] <= Times(es)[first[t]];
    assert es[0].target in entries;
  }

  lemma LastIsGreatest(entries: seq<Target>, es: seq<Event>, first: map<Target, nat>, last: map<Target, nat>, hi: real)
    requires es != [] && Schedule(Targets(entries), es, first, last) && IsGreatest(hi, entries)
    ensures Times(es)[|es| - 1] == hi
  {
    var t :| t in entries && t.end == hi;
    assert Times(es)[|es| - 1] >= Times(es)[last[t]];
    assert es[|es| - 1].target in entries;
  }
}
