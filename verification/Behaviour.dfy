/** The behaviour monitor (core/anomaly.py: `BehaviorMonitor`): sliding windows, baseline statistics and detection. */
module Behaviour {
  import opened Common
  import opened Averages
  import Enumeration

  // Times are microseconds of one clock.
  const MINUTE := 60 * 1_000_000
  const HOUR := 60 * MINUTE
  const SEQUENTIAL_ACCESS_WINDOW := MINUTE
  const SEQUENTIAL_ACCESS_THRESHOLD := 10
  const CAPABILITY_PROBE_THRESHOLD := 5
  const RATE_SPIKE_THRESHOLD := 3.0
  const ERROR_SPIKE_THRESHOLD := 2.0
  const MATURE := 100

  datatype Record = Record(timestamp: int, action: string, resource: string, success: bool)

  datatype Baseline = Baseline(
    avgRate: real,
    stdRate: real,
    maxRate: real,
    knownResources: set<string>,
    knownActions: set<string>,
    hourly: map<int, nat>,
    avgErrorRate: real,
    total: nat
  )

  const FRESH := Baseline(0.0, 0.0, 0.0, {}, {}, map[], 0.0, 0)

  /** What the monitor keeps for one agent: the records of the last hour, recent failures, the baseline. */
  datatype Track = Track(recent: seq<Record>, denials: seq<int>, baseline: Baseline)

  const EMPTY := Track([], [], FRESH)

  datatype Kind = RateSpike | NewResource | NewAction | UnusualTiming | SequentialAccess | ErrorSpike | CapabilityProbe

  datatype Severity = Low | Medium | High | Critical

  datatype Anomaly = Anomaly(kind: Kind, severity: Severity, review: bool)

  // ---------------------------------------------------------------------------------------------
  // Windows
  // ---------------------------------------------------------------------------------------------

  function Since(rs: seq<Record>, cutoff: int): seq<Record> {
    if rs == [] then []
    else (if rs[0].timestamp > cutoff then [rs[0]] else []) + Since(rs[1..], cutoff)
  }

  function TimesSince(ts: seq<int>, cutoff: int): seq<int> {
    if ts == [] then []
    else (if ts[0] > cutoff then [ts[0]] else []) + TimesSince(ts[1..], cutoff)
  }

  /** The times of the failed actions. */
  function Failures(rs: seq<Record>): seq<int> {
    if rs == [] then []
    else (if rs[0].success then [] else [rs[0].timestamp]) + Failures(rs[1..])
  }

  /** A window holds, in order, exactly the records later than the cutoff. */
  lemma {:induction false} SinceIsLater(rs: seq<Record>, cutoff: int) returns (at: seq<nat>)
    ensures Selects(Since(rs, cutoff), rs, (r: Record) => r.timestamp > cutoff, at)
  {
    at := [];
    if rs != [] {
      var tail := SinceIsLater(rs[1..], cutoff);
      SelectsCons(Since(rs[1..], cutoff), rs, (r: Record) => r.timestamp > cutoff, tail);
      if rs[0].timestamp > cutoff {
        at := [0] + Shifted(tail);
      } else {
        at := Shifted(tail);
        assert Since(rs, cutoff) == Since(rs[1..], cutoff);
      }
    }
  }

  lemma {:induction false} TimesSinceIsLater(ts: seq<int>, cutoff: int) returns (at: seq<nat>)
    ensures Selects(TimesSince(ts, cutoff), ts, (t: int) => t > cutoff, at)
  {
    at := [];
    if ts != [] {
      var tail := TimesSinceIsLater(ts[1..], cutoff);
      SelectsCons(TimesSince(ts[1..], cutoff), ts, (t: int) => t > cutoff, tail);
      if ts[0] > cutoff {
        at := [0] + Shifted(tail);
      } else {
        at := Shifted(tail);
        assert TimesSince(ts, cutoff) == TimesSince(ts[1..], cutoff);
      }
    }
  }

  /** The failure times are those of the failed records, in order. */
  lemma {:induction false} FailuresAreFailed(rs: seq<Record>) returns (failed: seq<Record>, at: seq<nat>)
    ensures Selects(failed, rs, (r: Record) => !r.success, at)
    ensures |Failures(rs)| == |failed| && forall k :: 0 <= k < |failed| ==> Failures(rs)[k] == failed[k].timestamp
  {
    failed, at := [], [];
    if rs != [] {
      var rest, places := FailuresAreFailed(rs[1..]);
      SelectsCons(rest, rs, (r: Record) => !r.success, places);
      if rs[0].success {
        failed, at := rest, Shifted(places);
        assert Failures(rs) == Failures(rs[1..]);
      } else {
        failed, at := [rs[0]] + rest, [0] + Shifted(places);
      }
    }
  }

  lemma {:induction false} SinceAppend(a: seq<Record>, b: seq<Record>, cutoff: int)
    ensures Since(a + b, cutoff) == Since(a, cutoff) + Since(b, cutoff)
  {
    if a == [] {
      assert a + b == b;
    } else {
      assert (a + b)[1..] == a[1..] + b;
      SinceAppend(a[1..], b, cutoff);
    }
  }

  /** Pruning earlier with an older cutoff does not change a later window. */
  lemma {:induction false} SinceSince(rs: seq<Record>, older: int, newer: int)
    requires older <= newer
    ensures Since(Since(rs, older), newer) == Since(rs, newer)
  {
    if rs != [] {
      SinceSince(rs[1..], older, newer);
      if rs[0].timestamp > older {
        SinceAppend([rs[0]], Since(rs[1..], older), newer);
        assert Since([rs[0]], newer) == if rs[0].timestamp > newer then [rs[0]] else [];
      } else {
        assert Since(rs, older) == Since(rs[1..], older) && Since(rs, newer) == Since(rs[1..], newer);
      }
    }
  }

  lemma {:induction false} TimesSinceAppend(a: seq<int>, b: seq<int>, cutoff: int)
    ensures TimesSince(a + b, cutoff) == TimesSince(a, cutoff) + TimesSince(b, cutoff)
  {
    if a == [] {
      assert a + b == b;
    } else {
      assert (a + b)[1..] == a[1..] + b;
      TimesSinceAppend(a[1..], b, cutoff);
    }
  }

  lemma {:induction false} TimesSinceSince(ts: seq<int>, older: int, newer: int)
    requires older <= newer
    ensures TimesSince(TimesSince(ts, older), newer) == TimesSince(ts, newer)
  {
    if ts != [] {
      TimesSinceSince(ts[1..], older, newer);
      if ts[0] > older {
        TimesSinceAppend([ts[0]], TimesSince(ts[1..], older), newer);
        assert TimesSince([ts[0]], newer) == if ts[0] > newer then [ts[0]] else [];
      } else {
        assert TimesSince(ts, older) == TimesSince(ts[1..], older) && TimesSince(ts, newer) == TimesSince(ts[1..], newer);
      }
    }
  }

  lemma {:induction false} FailuresAppend(a: seq<Record>, b: seq<Record>)
    ensures Failures(a + b) == Failures(a) + Failures(b)
  {
    if a == [] {
      assert a + b == b;
    } else {
      assert (a + b)[1..] == a[1..] + b;
      FailuresAppend(a[1..], b);
    }
  }

  // ---------------------------------------------------------------------------------------------
  // Baseline
  // ---------------------------------------------------------------------------------------------

  function HourOf(t: int): int {
    (t / HOUR) % 24
  }

  function HourCount(hourly: map<int, nat>, hour: int): nat {
    if hour in hourly then hourly[hour] else 0
  }

  function SumHours(hourly: map<int, nat>, n: nat): nat {
    if n == 0 then 0 else SumHours(hourly, n - 1) + HourCount(hourly, n - 1)
  }

  function Rate(count: nat): real {
    count as real / 5.0
  }

  function Max(a: real, b: real): real {
    if a < b then b else a
  }

  function Abs(a: real): real {
    if a < 0.0 then -a else a
  }

  /** `_update_baseline`; `count` is the number of recent records of the last five minutes. */
  function Updated(b: Baseline, r: Record, count: nat): Baseline {
    var total := b.total + 1;
    var rate := Rate(count);
    Baseline(
      if total == 1 then rate else 0.1 * rate + 0.9 * b.avgRate,
      if total == 1 then 0.0 else Max(0.1 * Abs(rate - b.avgRate) + 0.9 * b.stdRate, 0.01),
      Max(b.maxRate, rate),
      b.knownResources + {r.resource},
      b.knownActions + {r.action},
      b.hourly[HourOf(r.timestamp) := HourCount(b.hourly, HourOf(r.timestamp)) + 1],
      if total > 1 then 0.1 * (if r.success then 0.0 else 1.0) + 0.9 * b.avgErrorRate else b.avgErrorRate,
      total)
  }

  /** The bounds every baseline grown from a fresh one keeps. */
  ghost predicate BaselineInv(b: Baseline) {
    && SumHours(b.hourly, 24) == b.total
    && (forall hour :: hour in b.hourly ==> 0 <= hour < 24)
    && (b.total == 0 ==> b == FRESH)
    && (b.total >= 1 ==> 0.0 <= b.avgErrorRate <= 1.0 && 0.2 <= b.avgRate <= b.maxRate)
    && (b.total == 1 ==> b.stdRate == 0.0)
    && (b.total >= 2 ==> 0.01 <= b.stdRate <= Max(0.01, b.maxRate - 0.2))
  }

  lemma {:induction false} SumHoursUpdate(hourly: map<int, nat>, hour: int, n: nat)
    requires 0 <= hour
    ensures SumHours(hourly[hour := HourCount(hourly, hour) + 1], n) == SumHours(hourly, n) + if hour < n then 1 else 0
  {
    if n > 0 {
      SumHoursUpdate(hourly, hour, n - 1);
    }
  }

  /** One observation keeps the bounds; the window it is rated over holds at least the observation itself. */
  lemma UpdateKeepsInv(b: Baseline, r: Record, count: nat)
    requires BaselineInv(b) && count >= 1
    ensures BaselineInv(Updated(b, r, count))
  {
    SumHoursUpdate(b.hourly, HourOf(r.timestamp), 24);
    var b' := Updated(b, r, count);
    var rate := Rate(count);
    assert rate >= 0.2;
    if b.total >= 1 {
      assert Abs(rate - b.avgRate) <= b'.maxRate - 0.2;
    }
  }

  // ---------------------------------------------------------------------------------------------
  // Detection
  // ---------------------------------------------------------------------------------------------

  function RateChecks(recent: seq<Record>, b: Baseline, now: int): seq<Anomaly> {
    if |recent| < 2 then []
    else if b.stdRate == 0.0 then []
    else
      var z := (Rate(|Since(recent, now - 5 * MINUTE)|) - b.avgRate) / b.stdRate;
      if z > RATE_SPIKE_THRESHOLD then [Anomaly(RateSpike, if z > 5.0 then High else Medium, z > 5.0)] else []
  }

  function NoveltyChecks(b: Baseline, r: Record): seq<Anomaly> {
    (if r.resource !in b.knownResources then [Anomaly(NewResource, Medium, false)] else [])
    + (if r.action !in b.knownActions then [Anomaly(NewAction, Medium, false)] else [])
  }

  function TimingChecks(b: Baseline, r: Record): seq<Anomaly> {
    var total := SumHours(b.hourly, 24);
    if total < 100 then []
    else if HourCount(b.hourly, HourOf(r.timestamp)) as real / total as real < 0.01 && total > 500 then
      [Anomaly(UnusualTiming, Low, false)]
    else
      []
  }

  function Resources(rs: seq<Record>): seq<string> {
    if rs == [] then [] else [rs[0].resource] + Resources(rs[1..])
  }

  function SequentialChecks(recent: seq<Record>, now: int): seq<Anomaly> {
    if |recent| < SEQUENTIAL_ACCESS_THRESHOLD then []
    else
      var window := Since(recent, now - SEQUENTIAL_ACCESS_WINDOW);
      if |window| < SEQUENTIAL_ACCESS_THRESHOLD then []
      else
        var numbers := Enumeration.Numbers(Resources(window));
        if |numbers| >= SEQUENTIAL_ACCESS_THRESHOLD && Enumeration.IsSequential(numbers) then
          [Anomaly(SequentialAccess, High, true)]
        else
          []
  }

  function ErrorChecks(recent: seq<Record>, b: Baseline): seq<Anomaly> {
    if |recent| < 10 then []
    else
      var rate := |Failures(LastN(recent, 50))| as real / Min(50, |recent|) as real;
      var threshold := if b.avgErrorRate == 0.0 then 0.1 else b.avgErrorRate * ERROR_SPIKE_THRESHOLD;
      if rate > threshold && rate > 0.1 then [Anomaly(ErrorSpike, Medium, rate > 0.5)] else []
  }

  function ProbeChecks(denials: seq<int>): seq<Anomaly> {
    if |denials| >= CAPABILITY_PROBE_THRESHOLD then [Anomaly(CapabilityProbe, Critical, true)] else []
  }

  // ---------------------------------------------------------------------------------------------
  // One observation and whole histories
  // ---------------------------------------------------------------------------------------------

  function Pruned(recent: seq<Record>, r: Record): seq<Record> {
    Since(recent + [r], r.timestamp - HOUR)
  }

  function PrunedDenials(denials: seq<int>, r: Record): seq<int> {
    if r.success then denials else TimesSince(denials + [r.timestamp], r.timestamp - 5 * MINUTE)
  }

  /** The state after `record`. */
  function Observe(t: Track, r: Record): Track {
    var recent := Pruned(t.recent, r);
    Track(recent, PrunedDenials(t.denials, r), Updated(t.baseline, r, |Since(recent, r.timestamp - 5 * MINUTE)|))
  }

  /** The checks that need a mature baseline. */
  function MatureChecks(recent: seq<Record>, b: Baseline, r: Record, rateNow: int, windowNow: int): seq<Anomaly> {
    RateChecks(recent, b, rateNow)
    + NoveltyChecks(b, r)
    + TimingChecks(b, r)
    + SequentialChecks(recent, windowNow)
    + ErrorChecks(recent, b)
  }

  /** The anomalies `record` reports; `rateNow` and `windowNow` are the clock readings inside the two windowed checks. */
  function Detected(t: Track, r: Record, rateNow: int, windowNow: int): seq<Anomaly> {
    var recent := Pruned(t.recent, r);
    (if t.baseline.total < MATURE then [] else MatureChecks(recent, t.baseline, r, rateNow, windowNow))
    + (if r.success then [] else ProbeChecks(PrunedDenials(t.denials, r)))
  }

  function Replay(history: seq<Record>): Track {
    if history == [] then EMPTY else Observe(Replay(history[..|history| - 1]), history[|history| - 1])
  }

  ghost predicate Monotone(history: seq<Record>) {
    forall i, j :: 0 <= i <= j < |history| ==> history[i].timestamp <= history[j].timestamp
  }

  lemma SplitLast<T>(s: seq<T>)
    requires s != []
    ensures s == s[..|s| - 1] + [s[|s| - 1]]
  {
  }

  /** The one-hour list is the full history cut once at the latest cutoff. */
  lemma {:induction false} RecentIsLastHour(history: seq<Record>)
    requires Monotone(history) && history != []
    ensures Replay(history).recent == Since(history, history[|history| - 1].timestamp - HOUR)
    decreases |history|
  {
    var before, r := history[..|history| - 1], history[|history| - 1];
    SplitLast(history);
    if before == [] {
      assert Replay(before).recent == [] == Since(before, r.timestamp - HOUR);
      PruneStep(before, [], r, r.timestamp - HOUR);
    } else {
      RecentIsLastHour(before);
      PruneStep(before, Replay(before).recent, r, before[|before| - 1].timestamp - HOUR);
    }
  }

  lemma PruneStep(before: seq<Record>, recent: seq<Record>, r: Record, older: int)
    requires recent == Since(before, older) && older <= r.timestamp - HOUR
    ensures Pruned(recent, r) == Since(before + [r], r.timestamp - HOUR)
  {
    SinceAppend(before, [r], r.timestamp - HOUR);
    SinceAppend(recent, [r], r.timestamp - HOUR);
    SinceSince(before, older, r.timestamp - HOUR);
  }

  /** Any window of at most an hour, read at a time not before the last record, is the same over list and full history. */
  lemma WindowRefinesHistory(history: seq<Record>, now: int, width: int)
    requires Monotone(history) && history != [] && history[|history| - 1].timestamp <= now && width <= HOUR
    ensures Since(Replay(history).recent, now - width) == Since(history, now - width)
  {
    RecentIsLastHour(history);
    SinceSince(history, history[|history| - 1].timestamp - HOUR, now - width);
  }

  /** Recording a failure and cutting the list commutes with any later cut. */
  lemma DenialsStep(denials: seq<int>, r: Record, now: int)
    requires r.timestamp <= now
    ensures TimesSince(PrunedDenials(denials, r), now - 5 * MINUTE)
            == TimesSince(denials, now - 5 * MINUTE) + TimesSince(Failures([r]), now - 5 * MINUTE)
  {
    if r.success {
      assert Failures([r]) == [];
    } else {
      assert Failures([r]) == [r.timestamp];
      TimesSinceSince(denials + [r.timestamp], r.timestamp - 5 * MINUTE, now - 5 * MINUTE);
      TimesSinceAppend(denials, [r.timestamp], now - 5 * MINUTE);
    }
  }

  /** The denial list, cut again at any time after the last record, is the full failure history cut there. */
  lemma {:induction false} DenialsRefineHistory(history: seq<Record>, now: int)
    requires Monotone(history) && (history != [] ==> history[|history| - 1].timestamp <= now)
    ensures TimesSince(Replay(history).denials, now - 5 * MINUTE) == TimesSince(Failures(history), now - 5 * MINUTE)
    decreases |history|
  {
    if history != [] {
      var before, r := history[..|history| - 1], history[|history| - 1];
      DenialsRefineHistory(before, now);
      DenialsSnoc(before, r, now);
      SplitLast(history);
    }
  }

  lemma DenialsSnoc(before: seq<Record>, r: Record, now: int)
    requires r.timestamp <= now
    requires TimesSince(Replay(before).denials, now - 5 * MINUTE) == TimesSince(Failures(before), now - 5 * MINUTE)
    ensures TimesSince(Replay(before + [r]).denials, now - 5 * MINUTE)
            == TimesSince(Failures(before + [r]), now - 5 * MINUTE)
  {
    FailuresStep(before, r, now - 5 * MINUTE);
    assert Replay(before + [r]).denials == PrunedDenials(Replay(before).denials, r) by {
      ReplaySnoc(before, r);
    }
    DenialsStep(Replay(before).denials, r, now);
  }

  lemma FailuresStep(before: seq<Record>, r: Record, cutoff: int)
    ensures TimesSince(Failures(before + [r]), cutoff)
            == TimesSince(Failures(before), cutoff) + TimesSince(Failures([r]), cutoff)
  {
    FailuresAppend(before, [r]);
    TimesSinceAppend(Failures(before), Failures([r]), cutoff);
  }

  /** Right after a failure the denial list is exactly the failures of the last five minutes. */
  lemma DenialsAreLastFiveMinutes(history: seq<Record>, r: Record)
    requires Monotone(history + [r]) && !r.success
    ensures PrunedDenials(Replay(history).denials, r) == TimesSince(Failures(history + [r]), r.timestamp - 5 * MINUTE)
  {
    MonotonePrefix(history, r);
    DenialsRefineHistory(history, r.timestamp);
    DenialsNow(Replay(history).denials, history, r);
  }

  lemma MonotonePrefix(history: seq<Record>, r: Record)
    requires Monotone(history + [r])
    ensures Monotone(history) && (history != [] ==> history[|history| - 1].timestamp <= r.timestamp)
  {
    assert forall i :: 0 <= i < |history| ==> (history + [r])[i] == history[i];
    assert (history + [r])[|history|] == r;
  }

  lemma DenialsNow(denials: seq<int>, history: seq<Record>, r: Record)
    requires var cutoff := r.timestamp - 5 * MINUTE; TimesSince(denials, cutoff) == TimesSince(Failures(history), cutoff)
    requires !r.success
    ensures PrunedDenials(denials, r) == TimesSince(Failures(history + [r]), r.timestamp - 5 * MINUTE)
  {
    FailuresStep(history, r, r.timestamp - 5 * MINUTE);
    FailureCounts(denials, r, r.timestamp - 5 * MINUTE);
  }

  lemma FailureCounts(denials: seq<int>, r: Record, cutoff: int)
    requires !r.success
    ensures TimesSince(denials + [r.timestamp], cutoff) == TimesSince(denials, cutoff) + TimesSince(Failures([r]), cutoff)
  {
    assert Failures([r]) == [r.timestamp];
    TimesSinceAppend(denials, [r.timestamp], cutoff);
  }

  ghost predicate Reports(anomalies: seq<Anomaly>, kind: Kind) {
    exists a :: a in anomalies && a.kind == kind
  }

  lemma ReportsConcat(a: seq<Anomaly>, b: seq<Anomaly>, kind: Kind)
    ensures Reports(a + b, kind) <==> Reports(a, kind) || Reports(b, kind)
  {
    if Reports(a, kind) || Reports(b, kind) {
      var x :| (x in a || x in b) && x.kind == kind;
      assert x in a + b;
    }
  }

  lemma ReportsSingle(x: Anomaly, kind: Kind)
    ensures Reports([x], kind) <==> x.kind == kind
    ensures !Reports([], kind)
  {
    assert x in [x];
  }

  /** Each check reports only its own kind. */
  lemma ReportsOfChecks(recent: seq<Record>, b: Baseline, r: Record, denials: seq<int>, rateNow: int, windowNow: int, kind: Kind)
    ensures Reports(RateChecks(recent, b, rateNow), kind) <==> kind == RateSpike && RateChecks(recent, b, rateNow) != []
    ensures Reports(NoveltyChecks(b, r), kind) <==>
              (kind == NewResource && r.resource !in b.knownResources) || (kind == NewAction && r.action !in b.knownActions)
    ensures Reports(TimingChecks(b, r), kind) <==> kind == UnusualTiming && TimingChecks(b, r) != []
    ensures Reports(SequentialChecks(recent, windowNow), kind) <==>
              kind == SequentialAccess && SequentialChecks(recent, windowNow) != []
    ensures Reports(ErrorChecks(recent, b), kind) <==> kind == ErrorSpike && ErrorChecks(recent, b) != []
    ensures Reports(ProbeChecks(denials), kind) <==> kind == CapabilityProbe && |denials| >= CAPABILITY_PROBE_THRESHOLD
  {
    ReportsSingle(Anomaly(RateSpike, High, true), kind);
    var novel := if r.resource !in b.knownResources then [Anomaly(NewResource, Medium, false)] else [];
    var acted := if r.action !in b.knownActions then [Anomaly(NewAction, Medium, false)] else [];
    ReportsConcat(novel, acted, kind);
    ReportsSingle(Anomaly(NewResource, Medium, false), kind);
    ReportsSingle(Anomaly(NewAction, Medium, false), kind);
    ReportsSingle(Anomaly(SequentialAccess, High, true), kind);
    ReportsSingle(Anomaly(CapabilityProbe, Critical, true), kind);
    ReportsSingle(Anomaly(UnusualTiming, Low, false), kind);
    var errors := ErrorChecks(recent, b);
    if errors != [] {
      assert errors[0] in errors;
    }
    var rate := RateChecks(recent, b, rateNow);
    if rate != [] {
      assert rate[0] in rate;
    }
  }

  /** Which check is behind which reported kind. */
  lemma ReportedBy(t: Track, r: Record, rateNow: int, windowNow: int, kind: Kind)
    ensures var recent := Pruned(t.recent, r);
            var mature := t.baseline.total >= MATURE;
            Reports(Detected(t, r, rateNow, windowNow), kind) <==>
              match kind
              case RateSpike => mature && RateChecks(recent, t.baseline, rateNow) != []
              case NewResource => mature && r.resource !in t.baseline.knownResources
              case NewAction => mature && r.action !in t.baseline.knownActions
              case UnusualTiming => mature && TimingChecks(t.baseline, r) != []
              case SequentialAccess => mature && SequentialChecks(recent, windowNow) != []
              case ErrorSpike => mature && ErrorChecks(recent, t.baseline) != []
              case CapabilityProbe => !r.success && |PrunedDenials(t.denials, r)| >= CAPABILITY_PROBE_THRESHOLD
  {
    var recent, b := Pruned(t.recent, r), t.baseline;
    var denials := PrunedDenials(t.denials, r);
    ReportsOfChecks(recent, b, r, denials, rateNow, windowNow, kind);
    var c1, c2, c3 := RateChecks(recent, b, rateNow), NoveltyChecks(b, r), TimingChecks(b, r);
    var c4, c5 := SequentialChecks(recent, windowNow), ErrorChecks(recent, b);
    ReportsConcat(c1, c2, kind);
    ReportsConcat(c1 + c2, c3, kind);
    ReportsConcat(c1 + c2 + c3, c4, kind);
    ReportsConcat(c1 + c2 + c3 + c4, c5, kind);
    ReportsSingle(Anomaly(kind, Low, false), kind);
    ReportsConcat(if b.total < MATURE then [] else c1 + c2 + c3 + c4 + c5,
                  if r.success then [] else ProbeChecks(denials), kind);
  }

  /** How reports of each kind are graded, and which ask for a review. */
  predicate Graded(a: Anomaly) {
    match a.kind
    case NewResource => a.severity == Medium && !a.review
    case NewAction => a.severity == Medium && !a.review
    case UnusualTiming => a.severity == Low && !a.review
    case SequentialAccess => a.severity == High && a.review
    case CapabilityProbe => a.severity == Critical && a.review
    case ErrorSpike => a.severity == Medium
    case RateSpike => a.severity == if a.review then High else Medium
  }

  ghost predicate AllGraded(anomalies: seq<Anomaly>) {
    forall i :: 0 <= i < |anomalies| ==> Graded(anomalies[i])
  }

  lemma ReportsAreGraded(t: Track, r: Record, rateNow: int, windowNow: int)
    ensures AllGraded(Detected(t, r, rateNow, windowNow))
  {
    var recent := Pruned(t.recent, r);
    assert AllGraded(RateChecks(recent, t.baseline, rateNow));
    assert AllGraded(NoveltyChecks(t.baseline, r));
    assert AllGraded(TimingChecks(t.baseline, r));
    assert AllGraded(SequentialChecks(recent, windowNow));
    assert AllGraded(ErrorChecks(recent, t.baseline));
    assert AllGraded(MatureChecks(recent, t.baseline, r, rateNow, windowNow));
  }

  // ---------------------------------------------------------------------------------------------
  // Main results over all histories
  // ---------------------------------------------------------------------------------------------

  /** What has been observed before a record arrives. */
  ghost predicate Arrives(history: seq<Record>, r: Record, later: int) {
    Monotone(history + [r]) && r.timestamp <= later
  }

  lemma ReplaySnoc(history: seq<Record>, r: Record)
    ensures Replay(history + [r]) == Observe(Replay(history), r)
  {
    assert (history + [r])[..|history|] == history;
  }

  /**
   * The five-minute rate the spike check computes from its one-hour list is the rate over every record ever made; the
   * same count feeds the baseline.
   */
  lemma RateIsOverFullHistory(history: seq<Record>, r: Record, later: int)
    requires Arrives(history, r, later)
    ensures Since(Pruned(Replay(history).recent, r), later - 5 * MINUTE) == Since(history + [r], later - 5 * MINUTE)
    ensures var full := |Since(history + [r], r.timestamp - 5 * MINUTE)|;
            Replay(history + [r]).baseline == Updated(Replay(history).baseline, r, full) && full >= 1
  {
    RateWindow(history, r, later);
    RateWindow(history, r, r.timestamp);
    LastIsRecent(history, r);
    assert Replay(history + [r]) == Observe(Replay(history), r) by {
      ReplaySnoc(history, r);
    }
  }

  lemma RateWindow(history: seq<Record>, r: Record, later: int)
    requires Arrives(history, r, later)
    ensures Since(Pruned(Replay(history).recent, r), later - 5 * MINUTE) == Since(history + [r], later - 5 * MINUTE)
  {
    ReplaySnoc(history, r);
    WindowRefinesHistory(history + [r], later, 5 * MINUTE);
  }

  lemma LastIsRecent(history: seq<Record>, r: Record)
    ensures |Since(history + [r], r.timestamp - 5 * MINUTE)| >= 1
  {
    SinceAppend(history, [r], r.timestamp - 5 * MINUTE);
  }

  /** On a failure, and only then, CAPABILITY_PROBE is reported exactly when all of history has five failures in the last five minutes. */
  lemma ProbeIsFiveRecentFailures(history: seq<Record>, r: Record, rateNow: int, windowNow: int)
    requires Monotone(history + [r])
    ensures Reports(Detected(Replay(history), r, rateNow, windowNow), CapabilityProbe) <==>
              !r.success && |TimesSince(Failures(history + [r]), r.timestamp - 300_000_000)| >= 5
  {
    ReportedBy(Replay(history), r, rateNow, windowNow, CapabilityProbe);
    if !r.success {
      DenialsAreLastFiveMinutes(history, r);
    }
  }

  /** The numbers in the resources of the last minute of the full history. */
  function RecentNumbers(history: seq<Record>, now: int): seq<int> {
    Enumeration.Numbers(Resources(Since(history, now - 60_000_000)))
  }

  /**
   * With a mature baseline SEQUENTIAL_ACCESS is reported exactly when the last minute of the full history has at least
   * ten numbered resources whose numbers are distinct and form a full interval.
   */
  lemma SequentialIsInterval(history: seq<Record>, r: Record, rateNow: int, windowNow: int)
    requires Arrives(history, r, windowNow)
    ensures var numbers := RecentNumbers(history + [r], windowNow);
            Reports(Detected(Replay(history), r, rateNow, windowNow), SequentialAccess) <==>
              && |history| >= 100
              && |numbers| >= 10
              && Enumeration.Distinct(numbers)
              && exists lo :: Enumeration.Covers(numbers, lo, |numbers|)
  {
    LastMinuteNumbers(history, r, windowNow);
    SequentialChecksMeaning(Pruned(Replay(history).recent, r), windowNow);
    ReportedBy(Replay(history), r, rateNow, windowNow, SequentialAccess);
    KnownIsSeen(history, "");
  }

  lemma LastMinuteNumbers(history: seq<Record>, r: Record, now: int)
    requires Arrives(history, r, now)
    ensures RecentNumbers(Pruned(Replay(history).recent, r), now) == RecentNumbers(history + [r], now)
  {
    LastMinute(history, r, now);
  }

  lemma LastMinute(history: seq<Record>, r: Record, now: int)
    requires Arrives(history, r, now)
    ensures Since(Pruned(Replay(history).recent, r), now - 60_000_000) == Since(history + [r], now - 60_000_000)
  {
    ReplaySnoc(history, r);
    WindowRefinesHistory(history + [r], now, 60_000_000);
  }

  /** The two length tests on records add nothing to the length test on numbers. */
  lemma SequentialChecksMeaning(recent: seq<Record>, now: int)
    ensures var numbers := RecentNumbers(recent, now);
            SequentialChecks(recent, now) != [] <==>
              && |numbers| >= 10
              && Enumeration.Distinct(numbers)
              && exists lo :: Enumeration.Covers(numbers, lo, |numbers|)
  {
    var window := Since(recent, now - SEQUENTIAL_ACCESS_WINDOW);
    NumbersNoMoreThanRecords(window);
    SinceNoLonger(recent, now - SEQUENTIAL_ACCESS_WINDOW);
    if RecentNumbers(recent, now) != [] {
      Enumeration.SequentialIsFullInterval(RecentNumbers(recent, now));
    }
  }

  lemma {:induction false} ResourcesAre(rs: seq<Record>)
    ensures |Resources(rs)| == |rs| && forall i :: 0 <= i < |rs| ==> Resources(rs)[i] == rs[i].resource
  {
    if rs != [] {
      ResourcesAre(rs[1..]);
    }
  }

  lemma {:induction false} NumbersNoMoreThanRecords(rs: seq<Record>)
    ensures |Enumeration.Numbers(Resources(rs))| <= |rs|
  {
    if rs != [] {
      NumbersNoMoreThanRecords(rs[1..]);
      assert Resources(rs)[1..] == Resources(rs[1..]);
    }
  }

  lemma {:induction false} SinceNoLonger(rs: seq<Record>, cutoff: int)
    ensures |Since(rs, cutoff)| <= |rs|
  {
    if rs != [] {
      SinceNoLonger(rs[1..], cutoff);
    }
  }

  /** From a fresh baseline, every history keeps the statistics within their bounds. */
  lemma {:induction false} BaselineStaysBounded(history: seq<Record>)
    requires Monotone(history)
    ensures BaselineInv(Replay(history).baseline) && Replay(history).baseline.total == |history|
    decreases |history|
  {
    if history != [] {
      var before, r := history[..|history| - 1], history[|history| - 1];
      SplitLast(history);
      BaselineStaysBounded(before);
      RateIsOverFullHistory(before, r, r.timestamp);
      UpdateKeepsInv(Replay(before).baseline, r, |Since(history, r.timestamp - 5 * MINUTE)|);
    } else {
      NoHours(24);
    }
  }

  // ---------------------------------------------------------------------------------------------
  // The statistics in closed form
  // ---------------------------------------------------------------------------------------------

  /** 1 for every failed record and 0 for the others. */
  function Errors(history: seq<Record>): seq<real> {
    seq(|history|, i requires 0 <= i < |history| => if history[i].success then 0.0 else 1.0)
  }

  /** The mean error rate: every failed record after the first counts a tenth, times 0.9 for each record after it. */
  function MeanErrorRate(history: seq<Record>): real {
    if history == [] then 0.0 else Weighted(Errors(history)[1..])
  }

  /** The records per minute over the five minutes up to record `i`, itself included. */
  function RateAt(history: seq<Record>, i: nat): real
    requires i < |history|
  {
    |Since(history[..i + 1], history[i].timestamp - 300_000_000)| as real / 5.0
  }

  function Rates(history: seq<Record>): seq<real> {
    seq(|history|, i requires 0 <= i < |history| => RateAt(history, i))
  }

  /** How far each rate after the first is from the mean of the rates before it. */
  function Deviations(rates: seq<real>): seq<real> {
    if |rates| <= 1 then []
    else
      var n := |rates| - 1;
      var difference := rates[n] - Mean(rates[..n]);
      Deviations(rates[..n]) + [if difference < 0.0 then -difference else difference]
  }

  lemma {:induction false} DeviationsLength(rates: seq<real>)
    ensures |Deviations(rates)| == if rates == [] then 0 else |rates| - 1
  {
    if |rates| > 1 {
      DeviationsLength(rates[..|rates| - 1]);
    }
  }

  lemma ErrorsSnoc(history: seq<Record>, r: Record)
    ensures MeanErrorRate(history + [r]) ==
              if history == [] then 0.0 else 0.9 * MeanErrorRate(history) + if r.success then 0.0 else 0.1
  {
    var all := Errors(history + [r]);
    if history == [] {
      assert all[1..] == [];
    } else {
      assert all[1..] == Errors(history)[1..] + [if r.success then 0.0 else 1.0];
      WeightedSnoc(Errors(history)[1..], if r.success then 0.0 else 1.0);
    }
  }

  lemma RatesSnoc(history: seq<Record>, r: Record)
    ensures Rates(history + [r]) == Rates(history) + [|Since(history + [r], r.timestamp - 5 * MINUTE)| as real / 5.0]
  {
    var all := history + [r];
    assert all[..|history| + 1] == all;
    forall i | 0 <= i < |history|
      ensures RateAt(all, i) == RateAt(history, i)
    {
      assert all[..i + 1] == history[..i + 1];
    }
  }

  lemma DeviationsSnoc(rates: seq<real>, rate: real)
    requires rates != []
    ensures var difference := rate - Mean(rates);
            Deviations(rates + [rate]) == Deviations(rates) + [if difference < 0.0 then -difference else difference]
  {
    assert (rates + [rate])[..|rates|] == rates;
  }

  /** The mean, its deviation and the maximum of all rates at once. */
  ghost predicate SummarizesRates(b: Baseline, rates: seq<real>) {
    && b.total == |rates|
    && b.avgRate == Mean(rates)
    && IsRaised(Deviations(rates), b.stdRate)
    && (forall i :: 0 <= i < |rates| ==> rates[i] <= b.maxRate)
    && (if rates == [] then b.maxRate == 0.0 else b.maxRate in rates)
  }

  /** What the baseline holds, computed from the whole history at once. */
  ghost predicate Summarizes(b: Baseline, history: seq<Record>) {
    b.total == |history| && b.avgErrorRate == MeanErrorRate(history) && SummarizesRates(b, Rates(history))
  }

  /**
   * In every history the mean error rate, the mean rate and its deviation are the weighted sums, and the largest rate is
   * the largest of all.
   */
  lemma {:induction false} BaselineSummarizes(history: seq<Record>)
    requires Monotone(history)
    ensures Summarizes(Replay(history).baseline, history)
    decreases |history|
  {
    if history == [] {
      RaisedNone();
    } else {
      var before, r := history[..|history| - 1], history[|history| - 1];
      SplitLast(history);
      BaselineSummarizes(before);
      RateIsOverFullHistory(before, r, r.timestamp);
      UpdateSummarizes(Replay(before).baseline, before, r);
    }
  }

  lemma UpdateSummarizes(b: Baseline, history: seq<Record>, r: Record)
    requires Summarizes(b, history)
    ensures Summarizes(Updated(b, r, |Since(history + [r], r.timestamp - 5 * MINUTE)|), history + [r])
  {
    var count := |Since(history + [r], r.timestamp - 5 * MINUTE)|;
    var rate := count as real / 5.0;
    var b' := Updated(b, r, count);
    ErrorsSnoc(history, r);
    assert Rates(history + [r]) == Rates(history) + [rate] by {
      RatesSnoc(history, r);
    }
    RatesSummarize(b, Rates(history), count, r);
  }

  lemma RatesSummarize(b: Baseline, rates: seq<real>, count: nat, r: Record)
    requires SummarizesRates(b, rates)
    ensures SummarizesRates(Updated(b, r, count), rates + [count as real / 5.0])
  {
    var rate := count as real / 5.0;
    MeanSnoc(rates, rate);
    MaxStep(b, rates, rate);
    DeviationStep(b, rates, rate);
  }

  lemma MaxStep(b: Baseline, rates: seq<real>, rate: real)
    requires forall i :: 0 <= i < |rates| ==> rates[i] <= b.maxRate
    requires if rates == [] then b.maxRate == 0.0 else b.maxRate in rates
    requires rate >= 0.0
    ensures var m := Max(b.maxRate, rate);
            && (forall i :: 0 <= i < |rates + [rate]| ==> (rates + [rate])[i] <= m)
            && m in rates + [rate]
  {
    assert (rates + [rate])[|rates|] == rate;
  }

  lemma DeviationStep(b: Baseline, rates: seq<real>, rate: real)
    requires b.avgRate == Mean(rates) && IsRaised(Deviations(rates), b.stdRate)
    ensures IsRaised(Deviations(rates + [rate]),
                     if rates == [] then 0.0 else Max(0.1 * Abs(rate - b.avgRate) + 0.9 * b.stdRate, 0.01))
  {
    if rates == [] {
      RaisedNone();
    } else {
      DeviationsSnoc(rates, rate);
      RaisedStep(Deviations(rates), b.stdRate, Abs(rate - b.avgRate));
    }
  }

  lemma {:induction false} KnownIsSeen(history: seq<Record>, x: string)
    ensures x in Replay(history).baseline.knownResources <==> exists i :: 0 <= i < |history| && history[i].resource == x
    ensures Replay(history).baseline.total == |history|
    decreases |history|
  {
    if history != [] {
      var before, r := history[..|history| - 1], history[|history| - 1];
      KnownIsSeen(before, x);
      if i :| 0 <= i < |before| && before[i].resource == x {
        assert history[i].resource == x;
      }
    }
  }

  lemma {:induction false} ActionsAreSeen(history: seq<Record>, x: string)
    ensures x in Replay(history).baseline.knownActions <==> exists i :: 0 <= i < |history| && history[i].action == x
    ensures Replay(history).baseline.total == |history|
    decreases |history|
  {
    if history != [] {
      var before, r := history[..|history| - 1], history[|history| - 1];
      ActionsAreSeen(before, x);
      if i :| 0 <= i < |before| && before[i].action == x {
        assert history[i].action == x;
      }
    }
  }

  /** With a mature baseline an action is reported as new exactly when no earlier record of the full history is of it. */
  lemma NewActionIsUnseen(history: seq<Record>, r: Record, rateNow: int, windowNow: int)
    ensures Reports(Detected(Replay(history), r, rateNow, windowNow), NewAction) <==>
              |history| >= 100 && forall i :: 0 <= i < |history| ==> history[i].action != r.action
  {
    ReportedBy(Replay(history), r, rateNow, windowNow, NewAction);
    ActionsAreSeen(history, r.action);
  }

  /** More than a tenth of the records failed, and more than twice the mean error rate. */
  predicate FailsOften(last: seq<Record>, mean: real) {
    && |Failures(last)| as real > 0.1 * |last| as real
    && |Failures(last)| as real > 2.0 * mean * |last| as real
  }

  lemma RatioAbove(part: real, all: real, threshold: real)
    requires all > 0.0
    ensures part / all > threshold <==> part > threshold * all
  {
    var q := part / all;
    assert q * all == part;
    if q > threshold {
      assert (q - threshold) * all > 0.0;
    } else {
      assert (threshold - q) * all >= 0.0;
    }
  }

  lemma ErrorChecksMeaning(recent: seq<Record>, b: Baseline)
    requires b.avgErrorRate >= 0.0
    ensures ErrorChecks(recent, b) != [] <==> |recent| >= 10 && FailsOften(LastN(recent, 50), b.avgErrorRate)
  {
    if |recent| >= 10 {
      var last := LastN(recent, 50);
      assert |last| == Min(50, |recent|);
      RatioAbove(|Failures(last)| as real, |last| as real, 0.1);
      RatioAbove(|Failures(last)| as real, |last| as real, 2.0 * b.avgErrorRate);
    }
  }

  /**
   * ERROR_SPIKE is reported exactly when the baseline is mature, the last hour of the full history has ten records and
   * its last 50 fail often, measured by the weighted mean over all earlier records.
   */
  lemma ErrorSpikeIsFrequentFailure(history: seq<Record>, r: Record, rateNow: int, windowNow: int)
    requires Monotone(history + [r])
    ensures var hour := Since(history + [r], r.timestamp - 3_600_000_000);
            Reports(Detected(Replay(history), r, rateNow, windowNow), ErrorSpike) <==>
              && |history| >= 100
              && |hour| >= 10
              && FailsOften(if |hour| <= 50 then hour else hour[|hour| - 50..], MeanErrorRate(history))
  {
    MonotonePrefix(history, r);
    MatureStatistics(history);
    LastHourWindow(history, r);
    ReportedBy(Replay(history), r, rateNow, windowNow, ErrorSpike);
    ErrorChecksMeaning(Pruned(Replay(history).recent, r), Replay(history).baseline);
  }

  lemma {:induction false} NoHours(n: nat)
    ensures SumHours(map[], n) == 0
  {
    if n > 0 {
      NoHours(n - 1);
    }
  }

  lemma ExceedsScaled(x: real, mean: real, deviation: real)
    requires deviation > 0.0
    ensures (x - mean) / deviation > RATE_SPIKE_THRESHOLD <==> x > mean + RATE_SPIKE_THRESHOLD * deviation
  {
    var z := (x - mean) / deviation;
    assert z * deviation == x - mean;
    if z > RATE_SPIKE_THRESHOLD {
      assert (z - RATE_SPIKE_THRESHOLD) * deviation > 0.0;
    } else {
      assert (RATE_SPIKE_THRESHOLD - z) * deviation >= 0.0;
    }
  }

  /**
   * RATE_SPIKE is reported exactly when the baseline is mature, the last hour has a second record and the five-minute
   * rate over the full history is above the weighted mean of all earlier rates by more than three times each of the
   * weighted sums whose largest is the deviation. The guard against a zero deviation never decides, because a mature
   * baseline has a positive one.
   */
  lemma RateSpikeIsThreeDeviations(history: seq<Record>, r: Record, rateNow: int, windowNow: int)
    requires Arrives(history, r, rateNow)
    ensures Reports(Detected(Replay(history), r, rateNow, windowNow), RateSpike) <==>
              && |history| >= 100
              && |Since(history + [r], r.timestamp - 3_600_000_000)| >= 2
              && FarAbove(|Since(history + [r], rateNow - 300_000_000)| as real / 5.0, Rates(history))
  {
    MonotonePrefix(history, r);
    MatureStatistics(history);
    ReportedBy(Replay(history), r, rateNow, windowNow, RateSpike);
    if |history| >= MATURE {
      RateChecksOverHistory(history, r, rateNow, Replay(history).baseline);
    }
  }

  lemma RateChecksOverHistory(history: seq<Record>, r: Record, now: int, b: Baseline)
    requires Arrives(history, r, now) && b.stdRate > 0.0 && SummarizesRates(b, Rates(history))
    ensures RateChecks(Pruned(Replay(history).recent, r), b, now) != [] <==>
              && |Since(history + [r], r.timestamp - 3_600_000_000)| >= 2
              && FarAbove(|Since(history + [r], now - 300_000_000)| as real / 5.0, Rates(history))
  {
    assert HOUR == 3_600_000_000 && 5 * MINUTE == 300_000_000;
    RateWindow(history, r, now);
    LastHourWindow(history, r);
    RateChecksMeaning(Pruned(Replay(history).recent, r), b, Rates(history), now);
  }

  /** The statistics as the checks need them. */
  lemma MatureStatistics(history: seq<Record>)
    requires Monotone(history)
    ensures Replay(history).baseline.total == |history|
    ensures Replay(history).baseline.avgErrorRate == MeanErrorRate(history) >= 0.0
    ensures SummarizesRates(Replay(history).baseline, Rates(history))
    ensures |history| >= 2 ==> Replay(history).baseline.stdRate > 0.0
  {
    BaselineSummarizes(history);
    BaselineStaysBounded(history);
  }

  /** More than three times every weighted sum of deviations above the weighted mean. */
  ghost predicate FarAbove(rate: real, rates: seq<real>) {
    var deviations := Deviations(rates);
    forall k :: 0 <= k <= |deviations| ==> rate > Mean(rates) + 3.0 * RaisedAt(deviations, k)
  }

  lemma RateChecksMeaning(recent: seq<Record>, b: Baseline, rates: seq<real>, now: int)
    requires b.stdRate > 0.0 && SummarizesRates(b, rates)
    ensures RateChecks(recent, b, now) != [] <==>
              |recent| >= 2 && FarAbove(|Since(recent, now - 5 * MINUTE)| as real / 5.0, rates)
  {
    ExceedsScaled(Rate(|Since(recent, now - 5 * MINUTE)|), b.avgRate, b.stdRate);
    ExceedsAll(Rate(|Since(recent, now - 5 * MINUTE)|), b.stdRate, rates);
  }

  lemma ExceedsAll(x: real, deviation: real, rates: seq<real>)
    requires IsRaised(Deviations(rates), deviation)
    ensures x > Mean(rates) + 3.0 * deviation <==> FarAbove(x, rates)
  {
    var k :| 0 <= k <= |Deviations(rates)| && deviation == RaisedAt(Deviations(rates), k);
  }

  lemma LastHourWindow(history: seq<Record>, r: Record)
    requires Monotone(history + [r])
    ensures Pruned(Replay(history).recent, r) == Since(history + [r], r.timestamp - HOUR)
  {
    MonotonePrefix(history, r);
    if history == [] {
      PruneStep(history, [], r, r.timestamp - HOUR);
    } else {
      RecentIsLastHour(history);
      PruneStep(history, Replay(history).recent, r, history[|history| - 1].timestamp - HOUR);
    }
  }

  /** How many records fall into an hour of the day. */
  function InHour(history: seq<Record>, hour: int): nat {
    if history == [] then 0
    else
      var n := |history| - 1;
      InHour(history[..n], hour) + if (history[n].timestamp / 3_600_000_000) % 24 == hour then 1 else 0
  }

  lemma {:induction false} HoursAreCounted(history: seq<Record>, hour: int)
    ensures HourCount(Replay(history).baseline.hourly, hour) == InHour(history, hour)
    decreases |history|
  {
    if history != [] {
      HoursAreCounted(history[..|history| - 1], hour);
    }
  }

  /**
   * UNUSUAL_TIMING is reported exactly when there are more than 500 earlier records and under one percent of them fall
   * into the hour of this one.
   */
  lemma UnusualTimingIsRareHour(history: seq<Record>, r: Record, rateNow: int, windowNow: int)
    requires Monotone(history + [r])
    ensures Reports(Detected(Replay(history), r, rateNow, windowNow), UnusualTiming) <==>
              |history| > 500 && 100 * InHour(history, (r.timestamp / 3_600_000_000) % 24) < |history|
  {
    MonotonePrefix(history, r);
    BaselineStaysBounded(history);
    HoursAreCounted(history, HourOf(r.timestamp));
    ReportedBy(Replay(history), r, rateNow, windowNow, UnusualTiming);
    if |history| > 0 {
      BelowOnePercent(InHour(history, HourOf(r.timestamp)), |history|);
    }
  }

  lemma BelowOnePercent(part: nat, all: nat)
    requires all > 0
    ensures part as real / all as real < 0.01 <==> 100 * part < all
  {
    RatioBelow(part as real, all as real);
    assert 100.0 * part as real == (100 * part) as real;
  }

  lemma RatioBelow(part: real, all: real)
    requires all > 0.0
    ensures part / all < 0.01 <==> 100.0 * part < all
  {
    var q := part / all;
    assert q * all == part;
    if q < 0.01 {
      assert (0.01 - q) * all > 0.0;
    } else {
      assert (q - 0.01) * all >= 0.0;
    }
  }

  /** With a mature baseline a resource is reported as new exactly when no earlier record of the full history touched it. */
  lemma NewResourceIsUnseen(history: seq<Record>, r: Record, rateNow: int, windowNow: int)
    ensures Reports(Detected(Replay(history), r, rateNow, windowNow), NewResource) <==>
              |history| >= 100 && forall i :: 0 <= i < |history| ==> history[i].resource != r.resource
  {
    ReportedBy(Replay(history), r, rateNow, windowNow, NewResource);
    KnownIsSeen(history, r.resource);
  }
}
