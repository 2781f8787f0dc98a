/** How many entries one call of `_create_chain_entry` commits (core/audit.py), whatever other processes do meanwhile. */
module AuditCalls {
  import opened Common
  import opened AuditChain
  import opened AuditProtocol

  // ---------------------------------------------------------------------------------------------
  // Who added what
  // ---------------------------------------------------------------------------------------------

  /** What a step made the log longer by. */
  function Delta(s: System, t: System): seq<Entry> {
    if |s.shared.log| <= |t.shared.log| then t.shared.log[|s.shared.log|..] else []
  }

  function Signed(p: nat, es: seq<Entry>): seq<(nat, Entry)> {
    seq(|es|, i requires 0 <= i < |es| => (p, es[i]))
  }

  /** Everything a schedule adds to the log, each entry with the process that committed it. */
  function Gains(c: Config, s: System, schedule: seq<(nat, Action)>): seq<(nat, Entry)>
    decreases |schedule|
  {
    if schedule == [] then []
    else
      var t := Step(c, s, schedule[0].0, schedule[0].1);
      Signed(schedule[0].0, Delta(s, t)) + Gains(c, t, schedule[1..])
  }

  function Entries(gains: seq<(nat, Entry)>): seq<Entry> {
    seq(|gains|, i requires 0 <= i < |gains| => gains[i].1)
  }

  /** The entries committed by `p`. */
  function By(gains: seq<(nat, Entry)>, p: nat): seq<Entry> {
    if gains == [] then []
    else (if gains[0].0 == p then [gains[0].1] else []) + By(gains[1..], p)
  }

  lemma {:induction false} BySigned(q: nat, es: seq<Entry>, rest: seq<(nat, Entry)>, p: nat)
    ensures By(Signed(q, es) + rest, p) == (if q == p then es else []) + By(rest, p)
    decreases |es|
  {
    var all := Signed(q, es) + rest;
    if es == [] {
      assert all == rest;
    } else {
      BySigned(q, es[1..], rest, p);
      assert all[0] == (q, es[0]) && all[1..] == Signed(q, es[1..]) + rest;
      assert es == [es[0]] + es[1..];
    }
  }

  lemma FirstGains(c: Config, s: System, schedule: seq<(nat, Action)>, p: nat)
    requires schedule != []
    ensures var t := Step(c, s, schedule[0].0, schedule[0].1);
            By(Gains(c, s, schedule), p)
            == (if schedule[0].0 == p then Delta(s, t) else []) + By(Gains(c, t, schedule[1..]), p)
  {
    var t := Step(c, s, schedule[0].0, schedule[0].1);
    BySigned(schedule[0].0, Delta(s, t), Gains(c, t, schedule[1..]), p);
  }

  /** A step adds nothing or one entry. */
  lemma StepAdds(c: Config, s: System, p: nat, a: Action)
    ensures var t := Step(c, s, p, a);
            && t.shared.log == s.shared.log + Delta(s, t)
            && (Delta(s, t) != [] ==>
                  p in s.procs && Enabled(s.shared, s.procs[p].pc, a) && (a.ExecCommit? || a.ExecLost?)
                  && Delta(s, t) == [s.procs[p].pc.entry])
            && (p in s.procs && Enabled(s.shared, s.procs[p].pc, a) && (a.ExecCommit? || a.ExecLost?) ==> Delta(s, t) != [])
  {
  }

  lemma {:induction false} LogGains(c: Config, s: System, schedule: seq<(nat, Action)>)
    ensures Run(c, s, schedule).shared.log == s.shared.log + Entries(Gains(c, s, schedule))
    decreases |schedule|
  {
    if schedule != [] {
      var p, a := schedule[0].0, schedule[0].1;
      var t := Step(c, s, p, a);
      StepAdds(c, s, p, a);
      LogGains(c, t, schedule[1..]);
      var first, rest := Signed(p, Delta(s, t)), Gains(c, t, schedule[1..]);
      assert Entries(first + rest) == Delta(s, t) + Entries(rest);
    }
  }

  // ---------------------------------------------------------------------------------------------
  // One call
  // ---------------------------------------------------------------------------------------------

  /** Somewhere in the retry loop for this event. */
  predicate InCall(pc: PC, ev: Event) {
    (pc.Retrying? || pc.Watching? || pc.Holding? || pc.Queued?) && pc.ev == ev
  }

  /** The loop counter: an attempt under way is one of the 20. */
  predicate WithinRetries(pc: PC) {
    && (pc.Retrying? ==> pc.attempt <= MAX_RETRIES)
    && (pc.Watching? || pc.Holding? || pc.Queued? ==> pc.attempt < MAX_RETRIES)
  }

  /** The rest of a call of `p`, with the steps of others in between: it ends with the step that makes `p` idle. */
  predicate OneCall(c: Config, s: System, p: nat, ev: Event, schedule: seq<(nat, Action)>)
    decreases |schedule|
  {
    && schedule != []
    && p in s.procs
    && InCall(s.procs[p].pc, ev)
    && var t := Step(c, s, schedule[0].0, schedule[0].1);
       if |schedule| == 1 then t.procs[p].pc.Idle? else OneCall(c, t, p, ev, schedule[1..])
  }

  /** How many replies to a transaction of `p` were lost although it took effect. */
  function Losses(c: Config, s: System, p: nat, schedule: seq<(nat, Action)>): nat
    decreases |schedule|
  {
    if schedule == [] then 0
    else
      (if schedule[0].0 == p && schedule[0].1.ExecLost? && p in s.procs && Enabled(s.shared, s.procs[p].pc, schedule[0].1)
       then 1 else 0)
      + Losses(c, Step(c, s, schedule[0].0, schedule[0].1), p, schedule[1..])
  }

  /** The last step of a call: the acknowledged commit or the fallback. */
  function LastStep(schedule: seq<(nat, Action)>): (nat, Action)
    requires schedule != []
  {
    schedule[|schedule| - 1]
  }

  /** The step of `p` commits a copy of its event. */
  predicate Copies(s: System, p: nat, q: nat, a: Action) {
    q == p && p in s.procs && Enabled(s.shared, s.procs[p].pc, a) && (a.ExecCommit? || a.ExecLost?)
  }

  lemma OwnDelta(c: Config, s: System, p: nat, ev: Event, q: nat, a: Action)
    requires Inv(c, s) && p in s.procs && InCall(s.procs[p].pc, ev)
    ensures var own := if q == p then Delta(s, Step(c, s, q, a)) else [];
            if Copies(s, p, q, a) then |own| == 1 && own[0].content.event == ev else own == []
  {
    StepAdds(c, s, q, a);
    assert ProcInv(c, s.shared, s.procs[p]);
  }

  /** A call goes on, ends with an acknowledgement or a fallback of `p`, or dies with a restart. */
  lemma CallGoesOn(c: Config, s: System, p: nat, ev: Event, q: nat, a: Action)
    requires p in s.procs && InCall(s.procs[p].pc, ev)
    ensures var t := Step(c, s, q, a);
            && p in t.procs
            && (t.procs[p].pc.Idle? ==>
                  q == p && Enabled(s.shared, s.procs[p].pc, a) && (a.ExecCommit? || a.Fallback?))
            && (InCall(t.procs[p].pc, ev) ==> !(Copies(s, p, q, a) && a.ExecCommit?))
  {
  }

  /** What a call commits, in terms of how it went. */
  ghost predicate CallResult(c: Config, s: System, p: nat, ev: Event, schedule: seq<(nat, Action)>)
    requires schedule != []
  {
    var copies := By(Gains(c, s, schedule), p);
    && LastStep(schedule).0 == p
    && (LastStep(schedule).1.ExecCommit? || LastStep(schedule).1.Fallback?)
    && |copies| == Losses(c, s, p, schedule) + (if LastStep(schedule).1.ExecCommit? then 1 else 0)
    && forall e :: e in copies ==> e.content.event == ev
  }

  /** The last step of a call. */
  lemma CallEnds(c: Config, s: System, p: nat, ev: Event, step: (nat, Action))
    requires Inv(c, s) && OneCall(c, s, p, ev, [step])
    ensures CallResult(c, s, p, ev, [step])
  {
    var t := Step(c, s, step.0, step.1);
    FirstGains(c, s, [step], p);
    OwnDelta(c, s, p, ev, step.0, step.1);
    CallGoesOn(c, s, p, ev, step.0, step.1);
    assert [step][1..] == [];
    assert By(Gains(c, t, []), p) == [] && Losses(c, t, p, []) == 0;
  }

  /** A step in the middle of a call adds a copy exactly if it loses a reply. */
  lemma CallContinues(c: Config, s: System, p: nat, ev: Event, step: (nat, Action), rest: seq<(nat, Action)>)
    requires Inv(c, s) && p in s.procs && InCall(s.procs[p].pc, ev) && rest != []
    requires var t := Step(c, s, step.0, step.1);
             p in t.procs && InCall(t.procs[p].pc, ev) && CallResult(c, t, p, ev, rest)
    ensures CallResult(c, s, p, ev, [step] + rest)
  {
    var all := [step] + rest;
    var t := Step(c, s, step.0, step.1);
    assert all[1..] == rest && LastStep(all) == LastStep(rest);
    FirstGains(c, s, all, p);
    OwnDelta(c, s, p, ev, step.0, step.1);
    CallGoesOn(c, s, p, ev, step.0, step.1);
  }

  lemma {:induction false} CallCommits(c: Config, s: System, p: nat, ev: Event, schedule: seq<(nat, Action)>)
    requires Inv(c, s) && OneCall(c, s, p, ev, schedule)
    ensures CallResult(c, s, p, ev, schedule)
    decreases |schedule|
  {
    if |schedule| == 1 {
      assert schedule == [schedule[0]];
      CallEnds(c, s, p, ev, schedule[0]);
    } else {
      StepKeepsInv(c, s, schedule[0].0, schedule[0].1);
      CallCommits(c, Step(c, s, schedule[0].0, schedule[0].1), p, ev, schedule[1..]);
      CallContinues(c, s, p, ev, schedule[0], schedule[1..]);
      assert schedule == [schedule[0]] + schedule[1..];
    }
  }

  /**
   * In every run, whatever the others do during the call: one append commits one entry with its event for each lost
   * reply and one more if it is acknowledged, all of them new in the log. So the log gains its event from this call
   * exactly once if and only if it was acknowledged and lost no reply, or fell back after losing exactly one.
   */
  lemma AppendsOnceIff(c: Config, s: System, before: seq<(nat, Action)>, p: nat, ev: Event, call: seq<(nat, Action)>)
    requires Initial(s) && OneCall(c, Run(c, s, before), p, ev, call)
    ensures var t := Run(c, s, before); var gains := Gains(c, t, call);
            && Run(c, t, call).shared.log == t.shared.log + Entries(gains)
            && CallResult(c, t, p, ev, call)
            && (|By(gains, p)| == 1 <==>
                  if LastStep(call).1.ExecCommit? then Losses(c, t, p, call) == 0 else Losses(c, t, p, call) == 1)
  {
    RunKeepsInv(c, s, before);
    LogGains(c, Run(c, s, before), call);
    CallCommits(c, Run(c, s, before), p, ev, call);
  }

  lemma CountStep(c: Config, s: System, p: nat, ev: Event, q: nat, a: Action)
    requires p in s.procs && InCall(s.procs[p].pc, ev) && WithinRetries(s.procs[p].pc)
    ensures var t := Step(c, s, q, a);
            && p in t.procs
            && (InCall(t.procs[p].pc, ev) ==> WithinRetries(t.procs[p].pc) && t.procs[p].pc.attempt >= s.procs[p].pc.attempt)
            && (q == p && Enabled(s.shared, s.procs[p].pc, a) && a.ExecLost? ==>
                  InCall(t.procs[p].pc, ev) && t.procs[p].pc.attempt == s.procs[p].pc.attempt + 1)
            && (q == p && Enabled(s.shared, s.procs[p].pc, a) && a.ExecCommit? ==> s.procs[p].pc.attempt < MAX_RETRIES)
  {
  }

  /** A call commits at most as many copies as it has attempts left: 20 from its start. */
  lemma {:induction false} CopiesAreBounded(c: Config, s: System, p: nat, ev: Event, schedule: seq<(nat, Action)>)
    requires Inv(c, s) && OneCall(c, s, p, ev, schedule) && WithinRetries(s.procs[p].pc)
    ensures |By(Gains(c, s, schedule), p)| <= 20 - s.procs[p].pc.attempt
    decreases |schedule|
  {
    var q, a := schedule[0].0, schedule[0].1;
    var t := Step(c, s, q, a);
    FirstGains(c, s, schedule, p);
    OwnDelta(c, s, p, ev, q, a);
    CallGoesOn(c, s, p, ev, q, a);
    CountStep(c, s, p, ev, q, a);
    if |schedule| > 1 {
      StepKeepsInv(c, s, q, a);
      CopiesAreBounded(c, t, p, ev, schedule[1..]);
    }
  }
}
