/** The monitor object (core/anomaly.py: `BehaviorMonitor.record`, `_update_baseline`). */
module Monitoring {
  import opened Common
  import opened Behaviour
  import Enumeration

  /** What the three dictionaries hold for one agent; absent entries are the defaults. */
  function TrackIn(recent: map<string, seq<Record>>, denials: map<string, seq<int>>, baselines: map<string, Baseline>,
                   agent: string): Track {
    Track(if agent in recent then recent[agent] else [],
          if agent in denials then denials[agent] else [],
          if agent in baselines then baselines[agent] else FRESH)
  }

  function HistoryIn(history: map<string, seq<Record>>, agent: string): seq<Record> {
    if agent in history then history[agent] else []
  }

  /** The bounded state is what replaying each agent's full history gives. */
  ghost predicate Refines(recent: map<string, seq<Record>>, denials: map<string, seq<int>>,
                          baselines: map<string, Baseline>, history: map<string, seq<Record>>) {
    forall agent :: TrackIn(recent, denials, baselines, agent) == Replay(HistoryIn(history, agent))
  }

  /** The dictionary of denials after `r`: touched only by a failure. */
  function DenialsAfter(denials: map<string, seq<int>>, agent: string, r: Record): map<string, seq<int>> {
    if r.success then denials
    else denials[agent := PrunedDenials(if agent in denials then denials[agent] else [], r)]
  }

  /** Replacing the entries of one agent by what its longer history `more` replays to keeps the refinement. */
  lemma RefinesAfter(recent: map<string, seq<Record>>, denials: map<string, seq<int>>, baselines: map<string, Baseline>,
                     history: map<string, seq<Record>>, agent: string, more: seq<Record>, denials': map<string, seq<int>>)
    requires Refines(recent, denials, baselines, history)
    requires var t := Replay(more);
             denials' == denials[agent := t.denials]
             || (denials' == denials && t.denials == TrackIn(recent, denials, baselines, agent).denials)
    ensures var t := Replay(more);
            Refines(recent[agent := t.recent], denials', baselines[agent := t.baseline], history[agent := more])
  {
    var t := Replay(more);
    var recent', baselines', history' := recent[agent := t.recent], baselines[agent := t.baseline], history[agent := more];
    forall other
      ensures TrackIn(recent', denials', baselines', other) == Replay(HistoryIn(history', other))
    {
      assert TrackIn(recent, denials, baselines, other) == Replay(HistoryIn(history, other));
    }
  }

  /** What one record does to the dictionaries keeps the refinement. */
  lemma RecordRefines(recent: map<string, seq<Record>>, denials: map<string, seq<int>>, baselines: map<string, Baseline>,
                      history: map<string, seq<Record>>, agent: string, r: Record)
    requires Refines(recent, denials, baselines, history)
    ensures var t := TrackIn(recent, denials, baselines, agent);
            var recent' := Pruned(t.recent, r);
            var baseline' := Updated(t.baseline, r, |Since(recent', r.timestamp - 5 * MINUTE)|);
            Refines(recent[agent := recent'], DenialsAfter(denials, agent, r), baselines[agent := baseline'],
                    history[agent := HistoryIn(history, agent) + [r]])
  {
    var t := TrackIn(recent, denials, baselines, agent);
    var more := HistoryIn(history, agent) + [r];
    ReplaySnoc(HistoryIn(history, agent), r);
    var t' := Replay(more);
    assert t'.recent == Pruned(t.recent, r) && t'.denials == PrunedDenials(t.denials, r);
    assert t'.baseline == Updated(t.baseline, r, |Since(t'.recent, r.timestamp - 5 * MINUTE)|);
    RefinesAfter(recent, denials, baselines, history, agent, more, DenialsAfter(denials, agent, r));
  }

  lemma RecordKeepsBounds(t: Track, past: seq<Record>, r: Record)
    requires t == Replay(past) && Monotone(past + [r])
    ensures var b := Updated(t.baseline, r, |Since(Pruned(t.recent, r), r.timestamp - 5 * MINUTE)|);
            BaselineInv(b) && Summarizes(b, past + [r])
  {
    BaselineStaysBounded(past + [r]);
    BaselineSummarizes(past + [r]);
    ReplaySnoc(past, r);
  }

  class BehaviorMonitor {
    var recentRecords: map<string, seq<Record>>
    var recentDenials: map<string, seq<int>>
    var baselines: map<string, Baseline>
    var anomalies: seq<Anomaly>
    /** Every record ever made, per agent. */
    ghost var history: map<string, seq<Record>>

    constructor ()
      ensures Valid() && history == map[] && anomalies == []
    {
      recentRecords, recentDenials, baselines, anomalies, history := map[], map[], map[], [], map[];
    }

    function TrackOf(agent: string): Track
      reads `recentRecords, `recentDenials, `baselines
    {
      TrackIn(recentRecords, recentDenials, baselines, agent)
    }

    ghost predicate Valid()
      reads `recentRecords, `recentDenials, `baselines, `history
    {
      Refines(recentRecords, recentDenials, baselines, history)
    }

    /**
     * Records one action. `now`, `rateNow` and `windowNow` are successive readings of the clock. What is reported is
     * stated in terms of the full history.
     */
    method Record(agent: string, action: string, resource: string, success: bool, now: int, rateNow: int, windowNow: int)
      returns (found: seq<Anomaly>)
      requires Valid()
      requires now <= rateNow <= windowNow
      requires Arrives(HistoryIn(history, agent), Behaviour.Record(now, action, resource, success), now)
      modifies this
      ensures Valid()
      ensures var r := Behaviour.Record(now, action, resource, success);
              history == old(history)[agent := HistoryIn(old(history), agent) + [r]]
      ensures anomalies == old(anomalies) + found
      ensures FaithfulTo(found, HistoryIn(old(history), agent), Behaviour.Record(now, action, resource, success),
                         rateNow, windowNow)
      ensures BaselineInv(TrackOf(agent).baseline) && Summarizes(TrackOf(agent).baseline, HistoryIn(history, agent))
    {
      var r := Behaviour.Record(now, action, resource, success);
      ghost var t, past := TrackOf(agent), HistoryIn(history, agent);
      found := Observe(agent, r, rateNow, windowNow);
      anomalies := anomalies + found;
      history := history[agent := HistoryIn(history, agent) + [r]];
      RecordRefines(old(recentRecords), old(recentDenials), old(baselines), old(history), agent, r);
      RecordKeepsBounds(t, past, r);
      DetectionIsFaithful(past, r, rateNow, windowNow);
    }

    /** Stores the record, prunes, checks and updates the baseline. */
    method Observe(agent: string, r: Record, rateNow: int, windowNow: int) returns (found: seq<Anomaly>)
      modifies `recentRecords, `recentDenials, `baselines
      ensures found == Detected(old(TrackOf(agent)), r, rateNow, windowNow)
      ensures var t := old(TrackOf(agent));
              var recent' := Pruned(t.recent, r);
              && recentRecords == old(recentRecords)[agent := recent']
              && recentDenials == DenialsAfter(old(recentDenials), agent, r)
              && baselines == old(baselines)[agent :=
                   Updated(t.baseline, r, |Since(recent', r.timestamp - 5 * MINUTE)|)]
    {
      found := Assess(agent, r, rateNow, windowNow);
      UpdateBaseline(agent, r);
    }

    /** Everything but the update of the baseline, which is only created if it is missing. */
    method Assess(agent: string, r: Record, rateNow: int, windowNow: int) returns (found: seq<Anomaly>)
      modifies `recentRecords, `recentDenials, `baselines
      ensures found == Detected(old(TrackOf(agent)), r, rateNow, windowNow)
      ensures recentRecords == old(recentRecords)[agent := Pruned(old(TrackOf(agent)).recent, r)]
      ensures recentDenials == DenialsAfter(old(recentDenials), agent, r)
      ensures baselines == old(baselines)[agent := old(TrackOf(agent)).baseline]
    {
      var records := Store(agent, r);
      var baseline := LoadOrCreateBaseline(agent);
      found := Check(agent, records, baseline, r, rateNow, windowNow);
    }

    method LoadOrCreateBaseline(agent: string) returns (baseline: Baseline)
      modifies `baselines
      ensures baseline == old(TrackOf(agent)).baseline
      ensures baselines == old(baselines)[agent := baseline]
    {
      if agent !in baselines {
        baselines := baselines[agent := FRESH];
      }
      baseline := baselines[agent];
    }

    /** All checks of one record; a failure is remembered whether or not the baseline is mature. */
    method Check(agent: string, records: seq<Record>, baseline: Baseline, r: Record, rateNow: int, windowNow: int)
      returns (found: seq<Anomaly>)
      modifies `recentDenials
      ensures found == (if baseline.total < MATURE then [] else MatureChecks(records, baseline, r, rateNow, windowNow))
                       + if r.success then [] else ProbeChecks(PrunedDenials(old(TrackOf(agent)).denials, r))
      ensures recentDenials == DenialsAfter(old(recentDenials), agent, r)
    {
      found := [];
      if baseline.total >= MATURE {
        found := CheckMature(records, baseline, r, rateNow, windowNow);
      }
      if !r.success {
        var denied := RecordDenial(agent, r);
        found := found + denied;
      }
    }

    /** Adds the record and drops what is older than an hour. */
    method Store(agent: string, r: Record) returns (records: seq<Record>)
      modifies `recentRecords
      ensures records == Pruned(old(TrackOf(agent)).recent, r)
      ensures recentRecords == old(recentRecords)[agent := records]
    {
      records := (if agent in recentRecords then recentRecords[agent] else []) + [r];
      records := Since(records, r.timestamp - HOUR);
      recentRecords := recentRecords[agent := records];
    }

    method CheckMature(records: seq<Record>, baseline: Baseline, r: Record, rateNow: int, windowNow: int)
      returns (found: seq<Anomaly>)
      ensures found == MatureChecks(records, baseline, r, rateNow, windowNow)
    {
      found := RateChecks(records, baseline, rateNow);
      found := found + NoveltyChecks(baseline, r);
      found := found + TimingChecks(baseline, r);
      found := found + SequentialChecks(records, windowNow);
      found := found + ErrorChecks(records, baseline);
    }

    /** Appends the failure, prunes, and counts what is left. */
    method RecordDenial(agent: string, r: Record) returns (found: seq<Anomaly>)
      requires !r.success
      modifies `recentDenials
      ensures recentDenials == DenialsAfter(old(recentDenials), agent, r)
      ensures found == ProbeChecks(PrunedDenials(old(TrackOf(agent)).denials, r))
    {
      var denials := (if agent in recentDenials then recentDenials[agent] else []) + [r.timestamp];
      denials := TimesSince(denials, r.timestamp - 5 * MINUTE);
      recentDenials := recentDenials[agent := denials];
      found := ProbeChecks(denials);
    }

    /** Updates the fields of an agent's baseline one after the other. */
    method UpdateBaseline(agent: string, r: Record)
      requires agent in baselines && agent in recentRecords
      modifies `baselines
      ensures baselines == old(baselines)[agent :=
                Updated(old(baselines[agent]), r, |Since(recentRecords[agent], r.timestamp - 5 * MINUTE)|)]
    {
      var b := baselines[agent];
      b := b.(total := b.total + 1);
      b := b.(knownResources := b.knownResources + {r.resource});
      b := b.(knownActions := b.knownActions + {r.action});
      var hour := HourOf(r.timestamp);
      b := b.(hourly := b.hourly[hour := HourCount(b.hourly, hour) + 1]);
      if b.total > 1 {
        b := b.(avgErrorRate := 0.1 * (if r.success then 0.0 else 1.0) + 0.9 * b.avgErrorRate);
      }
      var rate := Rate(|Since(recentRecords[agent], r.timestamp - 5 * MINUTE)|);
      if b.total == 1 {
        b := b.(avgRate := rate, stdRate := 0.0);
      } else {
        var previous := b.avgRate;
        b := b.(avgRate := 0.1 * rate + 0.9 * previous);
        var deviation := Abs(rate - previous);
        b := b.(stdRate := Max(0.1 * deviation + 0.9 * b.stdRate, 0.01));
      }
      b := b.(maxRate := Max(b.maxRate, rate));
      baselines := baselines[agent := b];
    }
  }

  ghost predicate ProbeFaithful(found: seq<Anomaly>, past: seq<Record>, r: Record) {
    Reports(found, CapabilityProbe) <==>
      !r.success
      && |TimesSince(Failures(past + [r]), r.timestamp - 300_000_000)| >= 5
  }

  ghost predicate SequentialFaithful(found: seq<Anomaly>, past: seq<Record>, r: Record, windowNow: int) {
    var numbers := RecentNumbers(past + [r], windowNow);
    Reports(found, SequentialAccess) <==>
      && |past| >= 100
      && |numbers| >= 10
      && Enumeration.Distinct(numbers)
      && exists lo :: Enumeration.Covers(numbers, lo, |numbers|)
  }

  ghost predicate NoveltyFaithful(found: seq<Anomaly>, past: seq<Record>, r: Record) {
    Reports(found, NewResource) <==>
      |past| >= 100 && forall i :: 0 <= i < |past| ==> past[i].resource != r.resource
  }

  ghost predicate ActionFaithful(found: seq<Anomaly>, past: seq<Record>, r: Record) {
    Reports(found, NewAction) <==> |past| >= 100 && forall i :: 0 <= i < |past| ==> past[i].action != r.action
  }

  ghost predicate ErrorFaithful(found: seq<Anomaly>, past: seq<Record>, r: Record) {
    var hour := Since(past + [r], r.timestamp - 3_600_000_000);
    Reports(found, ErrorSpike) <==>
      && |past| >= 100
      && |hour| >= 10
      && FailsOften(if |hour| <= 50 then hour else hour[|hour| - 50..], MeanErrorRate(past))
  }

  ghost predicate TimingFaithful(found: seq<Anomaly>, past: seq<Record>, r: Record) {
    Reports(found, UnusualTiming) <==> |past| > 500 && 100 * InHour(past, (r.timestamp / 3_600_000_000) % 24) < |past|
  }

  ghost predicate RateFaithful(found: seq<Anomaly>, past: seq<Record>, r: Record, rateNow: int) {
    Reports(found, RateSpike) <==>
      && |past| >= 100
      && |Since(past + [r], r.timestamp - 3_600_000_000)| >= 2
      && FarAbove(|Since(past + [r], rateNow - 300_000_000)| as real / 5.0, Rates(past))
  }

  /** The reports in terms of every record made before, `past`, and the one just made. */
  ghost predicate FaithfulTo(found: seq<Anomaly>, past: seq<Record>, r: Record, rateNow: int, windowNow: int) {
    && ProbeFaithful(found, past, r)
    && SequentialFaithful(found, past, r, windowNow)
    && NoveltyFaithful(found, past, r)
    && ActionFaithful(found, past, r)
    && ErrorFaithful(found, past, r)
    && TimingFaithful(found, past, r)
    && RateFaithful(found, past, r, rateNow)
  }

  lemma DetectionIsFaithful(past: seq<Record>, r: Record, rateNow: int, windowNow: int)
    requires Arrives(past, r, rateNow) && rateNow <= windowNow
    ensures FaithfulTo(Detected(Replay(past), r, rateNow, windowNow), past, r, rateNow, windowNow)
  {
    var found := Detected(Replay(past), r, rateNow, windowNow);
    assert ProbeFaithful(found, past, r) by {
      ProbeIsFiveRecentFailures(past, r, rateNow, windowNow);
    }
    assert SequentialFaithful(found, past, r, windowNow) by {
      SequentialIsInterval(past, r, rateNow, windowNow);
    }
    assert NoveltyFaithful(found, past, r) by {
      NewResourceIsUnseen(past, r, rateNow, windowNow);
    }
    assert ActionFaithful(found, past, r) by {
      NewActionIsUnseen(past, r, rateNow, windowNow);
    }
    assert ErrorFaithful(found, past, r) by {
      ErrorSpikeIsFrequentFailure(past, r, rateNow, windowNow);
    }
    assert TimingFaithful(found, past, r) by {
      UnusualTimingIsRareHour(past, r, rateNow, windowNow);
    }
    assert RateFaithful(found, past, r, rateNow) by {
      RateSpikeIsThreeDeviations(past, r, rateNow, windowNow);
    }
  }
}
