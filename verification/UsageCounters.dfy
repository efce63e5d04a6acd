/** Cumulative counters turned into deltas: `app/cores/stats.py`. */
module UsageCounters {
  datatype Key = Key(core: string, account: string)

  /** Uplink and downlink bytes. */
  datatype Bytes = Bytes(up: int, down: int)

  type Readings = map<Key, Bytes>

  function Clamp(n: int): nat {
    if n < 0 then 0 else n
  }

  /** Growth of a counter; a lower reading is a new counter generation. */
  function Delta(current: int, previous: int): (d: nat)
    ensures d <= Clamp(current)
    ensures 0 <= previous <= current ==> previous + d == current
    ensures 0 <= current < previous ==> d == current
  {
    var c, p := Clamp(current), Clamp(previous);
    if c >= p then c - p else c
  }

  function Last(readings: Readings, k: Key): Bytes {
    if k in readings then readings[k] else Bytes(0, 0)
  }

  function Growth(readings: Readings, k: Key, up: int, down: int): Bytes {
    Bytes(Delta(up, Last(readings, k).up), Delta(down, Last(readings, k).down))
  }

  class DeltaTracker {
    var baseline: Readings

    constructor ()
      ensures baseline == map[]
    {
      baseline := map[];
    }

    method Observe(k: Key, uplink: int, downlink: int) returns (d: Bytes)
      modifies this
      ensures d == Growth(old(baseline), k, uplink, downlink)
      ensures baseline == old(baseline)[k := Bytes(Clamp(uplink), Clamp(downlink))]
    {
      var base := Last(baseline, k);
      var up, down := Clamp(uplink), Clamp(downlink);
      var deltaUp, deltaDown := Delta(up, base.up), Delta(down, base.down);
      baseline := baseline[k := Bytes(up, down)];
      d := Bytes(deltaUp, deltaDown);
    }

    method Forget(k: Key)
      modifies this
      ensures baseline == old(baseline) - {k}
    {
      baseline := baseline - {k};
    }

    method BaselineSnapshot() returns (snapshot: Readings)
      ensures snapshot == baseline
    {
      snapshot := baseline;
    }

    /** `dict.update`: the snapshot wins, other keys stay. */
    method Restore(snapshot: Readings)
      modifies this
      ensures baseline == old(baseline) + snapshot
    {
      baseline := baseline + snapshot;
    }
  }

  class SessionUsageTracker {
    var sessions: Readings

    constructor ()
      ensures sessions == map[]
    {
      sessions := map[];
    }

    method Poll(k: Key, uplink: int, downlink: int) returns (d: Bytes)
      modifies this
      ensures d == Growth(old(sessions), k, uplink, downlink)
      ensures sessions == old(sessions)[k := Bytes(Clamp(uplink), Clamp(downlink))]
    {
      var last := Last(sessions, k);
      var up, down := Clamp(uplink), Clamp(downlink);
      d := Bytes(Delta(up, last.up), Delta(down, last.down));
      sessions := sessions[k := Bytes(up, down)];
    }

    method Close(k: Key, finalUplink: int, finalDownlink: int) returns (d: Bytes)
      modifies this
      ensures d == Growth(old(sessions), k, finalUplink, finalDownlink)
      ensures sessions == old(sessions) - {k}
    {
      var last := Last(sessions, k);
      sessions := sessions - {k};
      d := Bytes(Delta(finalUplink, last.up), Delta(finalDownlink, last.down));
    }

    method SessionSnapshot() returns (snapshot: Readings)
      ensures snapshot == sessions
    {
      snapshot := sessions;
    }

    method RestoreSessions(snapshot: Readings)
      modifies this
      ensures sessions == old(sessions) + snapshot
    {
      sessions := sessions + snapshot;
    }
  }

  /** A panel restart: a new tracker takes over the old one's snapshot and answers as the old one would have. */
  method RestartTracker(tracker: DeltaTracker, k: Key, up: int, down: int) returns (d: Bytes, next: DeltaTracker)
    ensures d == Growth(tracker.baseline, k, up, down)
    ensures next.baseline == tracker.baseline[k := Bytes(Clamp(up), Clamp(down))]
  {
    var saved := tracker.BaselineSnapshot();
    next := new DeltaTracker();
    next.Restore(saved);
    d := next.Observe(k, up, down);
  }

  // ---- providers, traffic and what is reported of it ---------------------------------------

  /**
    * One counter of a provider in one direction. `traffic` is what really crossed; a reset
    * clears `counter`. `lost` counts bytes a reset cleared before any reading, `hidden` the
    * bytes mistaken for old traffic when a counter outgrew its baseline again after a reset.
    */
  datatype Gauge = Gauge(counter: nat, traffic: nat, emitted: nat, wasReset: bool, lost: nat, hidden: nat)

  datatype Meter = Meter(up: Gauge, down: Gauge)

  type Meters = map<Key, Meter>

  const ZERO := Gauge(0, 0, 0, false, 0, 0)

  function MeterOf(meters: Meters, k: Key): Meter {
    if k in meters then meters[k] else Meter(ZERO, ZERO)
  }

  /** Bytes no reading has covered yet. */
  function Pending(g: Gauge, base: int): int {
    if g.wasReset then g.counter else g.counter - base
  }

  function Grow(g: Gauge, n: nat): (r: Gauge)
    ensures forall base :: Accounted(g, base) ==> Accounted(r, base)
    ensures r.lost + r.hidden == g.lost + g.hidden && r.emitted == g.emitted
  {
    g.(counter := g.counter + n, traffic := g.traffic + n)
  }

  function Cleared(g: Gauge, base: int): (r: Gauge)
    requires Accounted(g, base)
    ensures Accounted(r, base) && r.emitted == g.emitted
    ensures r.lost + r.hidden >= g.lost + g.hidden
    ensures r.lost + r.hidden == g.lost + g.hidden <==> Pending(g, base) == 0
  {
    g.(counter := 0, wasReset := true, lost := g.lost + Pending(g, base))
  }

  function ReadOut(g: Gauge, base: int): (r: Gauge)
    requires Accounted(g, base)
    ensures Accounted(r, g.counter) && r.counter == g.counter && Pending(r, g.counter) == 0
    ensures Accounted(r.(counter := 0), 0)
    ensures r.emitted == g.emitted + Delta(g.counter, base)
    ensures r.lost + r.hidden >= g.lost + g.hidden
    ensures r.lost + r.hidden == g.lost + g.hidden <==> ResetShows(g, base)
  {
    g.(emitted := g.emitted + Delta(g.counter, base), wasReset := false,
       hidden := g.hidden + if g.wasReset && g.counter >= base then base else 0)
  }

  /** If the counter was reset, the reading is below the baseline (or there was none). */
  predicate ResetShows(g: Gauge, base: int) {
    g.wasReset ==> g.counter < base || base <= 0
  }

  /** The books balance: all traffic is reported, pending, lost or hidden. */
  predicate Accounted(g: Gauge, base: int) {
    && 0 <= base
    && (!g.wasReset ==> base <= g.counter)
    && g.traffic == g.emitted + g.lost + g.hidden + Pending(g, base)
  }

  datatype Event =
    | Traffic(k: Key, up: nat, down: nat)
    | CounterReset(k: Key)
    | Read(k: Key)
    | Finish(k: Key)
    | Restart

  datatype Record = Record(k: Key, bytes: Bytes)

  /** The tracker, the providers, and every record emitted so far. */
  datatype System = System(readings: Readings, meters: Meters, log: seq<Record>)

  ghost predicate Balanced(s: System) {
    forall k :: KeyBalanced(s, k)
  }

  predicate KeyBalanced(s: System, k: Key) {
    && Accounted(MeterOf(s.meters, k).up, Last(s.readings, k).up)
    && Accounted(MeterOf(s.meters, k).down, Last(s.readings, k).down)
  }

  ghost function Step(s: System, e: Event): System
    requires Balanced(s)
  {
    match e
    case Traffic(k, up, down) =>
      var m := MeterOf(s.meters, k);
      s.(meters := s.meters[k := Meter(Grow(m.up, up), Grow(m.down, down))])
    case CounterReset(k) =>
      assert KeyBalanced(s, k);
      var m, b := MeterOf(s.meters, k), Last(s.readings, k);
      s.(meters := s.meters[k := Meter(Cleared(m.up, b.up), Cleared(m.down, b.down))])
    case Read(k) =>
      assert KeyBalanced(s, k);
      var m, b := MeterOf(s.meters, k), Last(s.readings, k);
      System(s.readings[k := Bytes(m.up.counter, m.down.counter)],
             s.meters[k := Meter(ReadOut(m.up, b.up), ReadOut(m.down, b.down))],
             s.log + [Record(k, Growth(s.readings, k, m.up.counter, m.down.counter))])
    case Finish(k) =>
      assert KeyBalanced(s, k);
      var m, b := MeterOf(s.meters, k), Last(s.readings, k);
      System(s.readings - {k},
             s.meters[k := Meter(ReadOut(m.up, b.up).(counter := 0), ReadOut(m.down, b.down).(counter := 0))],
             s.log + [Record(k, Growth(s.readings, k, m.up.counter, m.down.counter))])
    case Restart =>
      s.(readings := map[] + s.readings)
  }

  lemma StepBalances(s: System, e: Event)
    requires Balanced(s)
    ensures Balanced(Step(s, e))
  {
    forall k ensures KeyBalanced(Step(s, e), k) {
      StepBalancesKey(s, e, k);
    }
  }

  lemma StepBalancesKey(s: System, e: Event, k: Key)
    requires Balanced(s)
    ensures KeyBalanced(Step(s, e), k)
  {
    hide Accounted, Grow, Cleared, ReadOut, Delta;
    assert KeyBalanced(s, k);
  }

  ghost function Exec(s: System, run: seq<Event>): (t: System)
    requires Balanced(s)
    ensures Balanced(t)
    decreases |run|
  {
    if run == [] then s else (StepBalances(s, run[0]); Exec(Step(s, run[0]), run[1..]))
  }

  const BOOT := System(map[], map[], [])

  lemma BootIsBalanced()
    ensures Balanced(BOOT)
  {
    forall k ensures KeyBalanced(BOOT, k) {
    }
  }

  /** Nothing is ever reported that did not cross, and the shortfall is what was lost, hidden or not yet read. */
  lemma NeverOverReported(run: seq<Event>, k: Key)
    ensures Balanced(BOOT)
    ensures var end := Exec(BOOT, run);
            var m, b := MeterOf(end.meters, k), Last(end.readings, k);
            && m.up.emitted + m.up.lost + m.up.hidden + Pending(m.up, b.up) == m.up.traffic
            && m.down.emitted + m.down.lost + m.down.hidden + Pending(m.down, b.down) == m.down.traffic
            && m.up.emitted <= m.up.traffic && m.down.emitted <= m.down.traffic
  {
    BootIsBalanced();
    assert KeyBalanced(Exec(BOOT, run), k);
  }

  // ---- when nothing is missed -------------------------------------------------------------------

  /** Bytes of `k` that no record will ever report. */
  function Missed(s: System, k: Key): nat {
    var m := MeterOf(s.meters, k);
    m.up.lost + m.up.hidden + (m.down.lost + m.down.hidden)
  }

  /** Resets of `k` clear nothing unread, and the next reading shows them as a drop. */
  predicate Shows(s: System, e: Event, k: Key) {
    var m, b := MeterOf(s.meters, k), Last(s.readings, k);
    match e
    case CounterReset(j) => j == k ==> Pending(m.up, b.up) == 0 && Pending(m.down, b.down) == 0
    case Read(j) => j == k ==> ResetShows(m.up, b.up) && ResetShows(m.down, b.down)
    case Finish(j) => j == k ==> ResetShows(m.up, b.up) && ResetShows(m.down, b.down)
    case _ => true
  }

  ghost predicate AllShow(s: System, run: seq<Event>, k: Key)
    requires Balanced(s)
    decreases |run|
  {
    run == [] || (Shows(s, run[0], k) && (StepBalances(s, run[0]); AllShow(Step(s, run[0]), run[1..], k)))
  }

  lemma StepMisses(s: System, e: Event, k: Key)
    requires Balanced(s)
    ensures Missed(Step(s, e), k) >= Missed(s, k)
    ensures Missed(Step(s, e), k) == Missed(s, k) <==> Shows(s, e, k)
  {
    hide Accounted, Grow, Cleared, ReadOut, Delta, Pending, ResetShows;
    assert KeyBalanced(s, k);
  }

  lemma {:induction false} RunMisses(s: System, run: seq<Event>, k: Key)
    requires Balanced(s)
    ensures Missed(Exec(s, run), k) >= Missed(s, k)
    ensures Missed(Exec(s, run), k) == Missed(s, k) <==> AllShow(s, run, k)
    decreases |run|
  {
    hide Step, Missed, Shows, Balanced;
    if run != [] {
      StepBalances(s, run[0]);
      StepMisses(s, run[0], k);
      RunMisses(Step(s, run[0]), run[1..], k);
    }
  }

  /** Once everything has been read, reports equal traffic exactly when every reset showed as a drop. */
  lemma ExactIffResetsShow(run: seq<Event>, k: Key)
    ensures Balanced(BOOT)
    ensures var end := Exec(BOOT, run);
            var m, b := MeterOf(end.meters, k), Last(end.readings, k);
            Pending(m.up, b.up) == 0 && Pending(m.down, b.down) == 0 ==>
              (m.up.emitted == m.up.traffic && m.down.emitted == m.down.traffic <==> AllShow(BOOT, run, k))
  {
    hide Exec, AllShow;
    NeverOverReported(run, k);
    RunMisses(BOOT, run, k);
  }

  /** A reset before the first reading loses everything the counter held. */
  lemma UnreadResetUnderReports(k: Key, n: nat)
    ensures Balanced(BOOT)
    ensures var m := MeterOf(Exec(BOOT, [Traffic(k, n, 0), CounterReset(k), Read(k)]).meters, k);
            m.up.traffic == n && m.up.emitted == 0
  {
    hide Exec, Balanced, Accounted;
    BootIsBalanced();
    var a, b, c := Traffic(k, n, 0), CounterReset(k), Read(k);
    StepBalances(BOOT, a);
    var s := Step(BOOT, a);
    StepBalances(s, b);
    ThreeSteps(BOOT, a, b, c);
  }

  lemma ExecFirst(s: System, e: Event, rest: seq<Event>)
    requires Balanced(s)
    ensures Balanced(Step(s, e)) && Exec(s, [e] + rest) == Exec(Step(s, e), rest)
  {
    hide Step, Balanced;
    StepBalances(s, e);
    assert ([e] + rest)[1..] == rest;
  }

  lemma ThreeSteps(s: System, a: Event, b: Event, c: Event)
    requires Balanced(s)
    ensures Balanced(Step(s, a)) && Balanced(Step(Step(s, a), b))
    ensures Exec(s, [a, b, c]) == Step(Step(Step(s, a), b), c)
  {
    hide Step, Balanced;
    assert [a, b, c] == [a] + [b, c] && [b, c] == [b] + [c] && [c] == [c] + [];
    ExecFirst(s, a, [b, c]);
    ExecFirst(Step(s, a), b, [c]);
    ExecFirst(Step(Step(s, a), b), c, []);
  }

  /** A counter that outgrows its baseline again after a reset hides the baseline's worth of traffic. */
  lemma HiddenResetUnderReports(k: Key, m: nat, n: nat)
    requires m <= n
    ensures Balanced(BOOT)
    ensures var run := [Traffic(k, m, 0), Read(k), CounterReset(k)] + [Traffic(k, n, 0), Read(k)];
            var g := MeterOf(Exec(BOOT, run).meters, k).up;
            g.traffic == m + n && g.emitted == n && g.hidden == m && g.lost == 0
  {
    hide Exec, Balanced, Accounted;
    BootIsBalanced();
    var a, b, c, d := Traffic(k, m, 0), Read(k), CounterReset(k), Traffic(k, n, 0);
    assert [a, b, c] + [d, b] == [a] + ([b] + ([c] + [d, b]));
    ExecFirst(BOOT, a, [b] + ([c] + [d, b]));
    var s := Step(BOOT, a);
    ExecFirst(s, b, [c] + [d, b]);
    var t := Step(s, b);
    assert Last(t.readings, k) == Bytes(m, 0) && MeterOf(t.meters, k).up == Gauge(m, m, m, false, 0, 0);
    ExecFirst(t, c, [d, b]);
    var u := Step(t, c);
    assert MeterOf(u.meters, k).up == Gauge(0, m, m, true, 0, 0);
    TwoSteps(u, d, b);
  }

  lemma TwoSteps(s: System, a: Event, b: Event)
    requires Balanced(s)
    ensures Balanced(Step(s, a)) && Exec(s, [a, b]) == Step(Step(s, a), b)
  {
    hide Step, Balanced;
    assert [a, b] == [a] + [b] && [b] == [b] + [];
    ExecFirst(s, a, [b]);
    ExecFirst(Step(s, a), b, []);
  }

  // ---- the log -------------------------------------------------------------------------------------

  function LogSum(log: seq<Record>, k: Key): Bytes {
    if log == [] then Bytes(0, 0)
    else
      var last, rest := log[|log| - 1], LogSum(log[..|log| - 1], k);
      if last.k == k then Bytes(rest.up + last.bytes.up, rest.down + last.bytes.down) else rest
  }

  /** The log of records holds, per key, exactly what was emitted. */
  predicate LogTrue(s: System, k: Key) {
    LogSum(s.log, k) == Bytes(MeterOf(s.meters, k).up.emitted, MeterOf(s.meters, k).down.emitted)
  }

  lemma LogSumAppend(log: seq<Record>, r: Record, k: Key)
    ensures LogSum(log + [r], k) == (if r.k == k then Bytes(LogSum(log, k).up + r.bytes.up, LogSum(log, k).down + r.bytes.down)
                                     else LogSum(log, k))
  {
    assert (log + [r])[..|log|] == log;
  }

  lemma StepLogs(s: System, e: Event, k: Key)
    requires Balanced(s) && LogTrue(s, k)
    ensures LogTrue(Step(s, e), k)
  {
    hide Accounted, Delta, Grow, Cleared, ReadOut, LogSum, Pending, ResetShows;
    assert KeyBalanced(s, k);
    if e.Read? || e.Finish? {
      var m := MeterOf(s.meters, e.k);
      LogSumAppend(s.log, Record(e.k, Growth(s.readings, e.k, m.up.counter, m.down.counter)), k);
    }
  }

  lemma {:induction false} RunLogs(s: System, run: seq<Event>, k: Key)
    requires Balanced(s) && LogTrue(s, k)
    ensures LogTrue(Exec(s, run), k)
    decreases |run|
  {
    hide Step, LogTrue, Balanced;
    if run != [] {
      StepBalances(s, run[0]);
      StepLogs(s, run[0], k);
      RunLogs(Step(s, run[0]), run[1..], k);
    }
  }
}
