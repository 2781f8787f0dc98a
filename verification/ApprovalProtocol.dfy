/**
 * Any number of workers, each with its own gate, the HTTP endpoints and one store
 * (core/approval.py, main.py, agents/base.py), as a step system.
 */
module ApprovalProtocol {
  import opened Common
  import opened Approval

  datatype Phase = Waiting | Executed | Refused | Lost

  /** An agent request whose action a rule matched, waiting on the approval request of the same id. */
  datatype Job = Job(worker: nat, agentId: string, action: string, phase: Phase)

  /** A store update on its way: the check that led to it is past, others may act before it lands. */
  datatype Write =
    | Decision(id: string, status: Status, at: real, who: string, notes: Option<string>)
    | Questions(id: string, text: string)

  /** `approved` is a history of the ids for which some step recorded "approved". */
  datatype System = System(
    gates: map<nat, Gate>,
    records: map<string, Request>,
    writes: seq<Write>,
    jobs: map<string, Job>,
    approved: set<string>
  )

  datatype Action =
    | Submit(worker: nat, r: Request, saved: bool)
    | GateCall(worker: nat, call: Call, now: real)
    | HttpApprove(id: string, who: string, notes: Option<string>, now: real)
    | HttpReject(id: string, who: string, notes: Option<string>, now: real)
    | HttpMoreInfo(id: string, questions: string)
    | Deliver(k: nat, ok: bool)
    | PollJob(id: string, up: bool, late: bool, now: real)
    | Restart(worker: nat, ids: set<string>)

  // ---------------------------------------------------------------------------------------------
  // Steps
  // ---------------------------------------------------------------------------------------------

  /** What a successful gate call sends to the store; asking for information sends nothing. */
  function CallWrite(c: Call, now: real): seq<Write> {
    match c
    case CallApprove(id, who, notes) => [Decision(id, Approved, now, who, notes)]
    case CallReject(id, who, notes) => [Decision(id, Rejected, now, who, notes)]
    case CallMoreInfo(_, _) => []
  }

  function Landed(r: Request, w: Write): Request {
    match w
    case Decision(_, status, at, who, notes) => Decided(r, status, Some(at), Some(who), notes)
    case Questions(_, text) => r.(status := MoreInfo, notes := Some("Questions: " + text))
  }

  /** The endpoints decide only a record they read as pending. */
  predicate ReadsPending(s: System, id: string) {
    id in s.records && s.records[id].status == Pending
  }

  /** A gate rebuilt from stored records; `ids` are the ones the pending queue listed. */
  function Reloaded(records: map<string, Request>, ids: set<string>): Gate {
    Gate(map id | id in ids && id in records :: Decided(records[id], records[id].status, None, None, None),
         map[], {}, {})
  }

  function Without<T>(s: seq<T>, k: nat): seq<T>
    requires k < |s|
  {
    s[..k] + s[k + 1..]
  }

  function Step(s: System, a: Action): System {
    match a
    case Submit(w, r, saved) =>
      if w !in s.gates || r.id in s.jobs || r.status != Pending then s
      else s.(gates := s.gates[w := File(s.gates[w], r)],
              records := if saved then s.records[r.id := r] else s.records,
              jobs := s.jobs[r.id := Job(w, r.agentId, r.action, Waiting)])
    case GateCall(w, c, now) =>
      if w !in s.gates || !Decidable(s.gates[w], c.id) then s
      else s.(gates := s.gates[w := AfterCall(s.gates[w], c, now)],
              writes := s.writes + CallWrite(c, now),
              approved := s.approved + if c.CallApprove? then {c.id} else {})
    case HttpApprove(id, who, notes, now) =>
      if ReadsPending(s, id) then s.(writes := s.writes + [Decision(id, Approved, now, who, notes)]) else s
    case HttpReject(id, who, notes, now) =>
      if ReadsPending(s, id) then s.(writes := s.writes + [Decision(id, Rejected, now, who, notes)]) else s
    case HttpMoreInfo(id, questions) =>
      if id in s.records then s.(writes := s.writes + [Questions(id, questions)]) else s
    case Deliver(k, ok) =>
      if k >= |s.writes| then s
      else if !ok || s.writes[k].id !in s.records then s.(writes := Without(s.writes, k))
      else Delivered(s, k)
    case PollJob(id, up, late, now) =>
      if id !in s.jobs || !s.jobs[id].phase.Waiting? then s
      else if s.jobs[id].worker !in s.gates || !Knows(s.gates[s.jobs[id].worker], id) then s
      else Polled(s, id, up, late, now)
    case Restart(w, ids) =>
      System(s.gates[w := Reloaded(s.records, ids)], s.records, s.writes,
             map id | id in s.jobs :: if s.jobs[id].worker == w && s.jobs[id].phase.Waiting?
                                      then s.jobs[id].(phase := Lost) else s.jobs[id],
             s.approved)
  }

  function Delivered(s: System, k: nat): System
    requires k < |s.writes| && s.writes[k].id in s.records
  {
    var w := s.writes[k];
    s.(records := s.records[w.id := Landed(s.records[w.id], w)],
       writes := Without(s.writes, k),
       approved := s.approved + if w.Decision? && w.status == Approved then {w.id} else {})
  }

  /** The waiter of `id` polls once; when the wait is over the agent executes exactly if the status is "approved". */
  function Polled(s: System, id: string, up: bool, late: bool, now: real): System
    requires id in s.jobs && s.jobs[id].worker in s.gates && Knows(s.gates[s.jobs[id].worker], id)
  {
    var w := s.jobs[id].worker;
    var stored := if up && id in s.records then Some(s.records[id]) else None;
    match Poll(s.gates[w], id, stored, late, now)
    case None => s
    case Some(g) =>
      s.(gates := s.gates[w := g],
         jobs := s.jobs[id := s.jobs[id].(phase :=
           if Knows(g, id) && Lookup(g, id).status == Approved then Executed else Refused)])
  }

  /** The state after a schedule. */
  function Run(s: System, schedule: seq<Action>): System
    decreases |schedule|
  {
    if schedule == [] then s
    else Step(Run(s, schedule[..|schedule| - 1]), schedule[|schedule| - 1])
  }

  ghost predicate Initial(s: System) {
    && (forall w :: w in s.gates ==> s.gates[w] == Gate(map[], map[], {}, {}))
    && s.records == map[] && s.writes == [] && s.jobs == map[] && s.approved == {}
  }

  // ---------------------------------------------------------------------------------------------
  // The invariant
  // ---------------------------------------------------------------------------------------------

  /** A copy of the request `id`: it belongs to its job, and it says "approved" only if that was recorded. */
  ghost predicate Honest(s: System, id: string, r: Request) {
    && r.id == id
    && id in s.jobs
    && r.agentId == s.jobs[id].agentId
    && r.action == s.jobs[id].action
    && (r.status == Approved ==> id in s.approved)
  }

  ghost predicate HonestGate(s: System, g: Gate) {
    && (forall id :: id in g.pending ==> Honest(s, id, g.pending[id]))
    && (forall id :: id in g.completed ==> Honest(s, id, g.completed[id]))
  }

  ghost predicate Inv(s: System) {
    && (forall w :: w in s.gates ==> HonestGate(s, s.gates[w]))
    && (forall id :: id in s.records ==> Honest(s, id, s.records[id]))
    && (forall id :: id in s.jobs && s.jobs[id].phase == Executed ==> id in s.approved)
    && Decisive(s.writes)
  }

  /** Decisions on their way to the store approve or reject. */
  ghost predicate Decisive(writes: seq<Write>) {
    forall k :: 0 <= k < |writes| && writes[k].Decision? ==> writes[k].status in {Approved, Rejected}
  }

  /** What no step takes back: approvals, executions and what a job is about. */
  ghost predicate Extends(s: System, t: System) {
    && s.approved <= t.approved
    && forall id :: id in s.jobs ==>
         && id in t.jobs
         && t.jobs[id].agentId == s.jobs[id].agentId
         && t.jobs[id].action == s.jobs[id].action
         && (s.jobs[id].phase == Executed ==> t.jobs[id].phase == Executed)
  }

  lemma HonestStays(s: System, t: System, g: Gate)
    requires Extends(s, t) && HonestGate(s, g)
    ensures HonestGate(t, g)
  {
  }

  lemma StepExtends(s: System, a: Action)
    ensures Extends(s, Step(s, a))
  {
  }

  lemma CallKeepsHonest(s: System, t: System, g: Gate, c: Call, now: real)
    requires Extends(s, t) && HonestGate(s, g) && (c.CallApprove? && Decidable(g, c.id) ==> c.id in t.approved)
    ensures HonestGate(t, AfterCall(g, c, now))
  {
  }

  lemma PollKeepsHonest(s: System, g: Gate, id: string, stored: Option<Request>, late: bool, now: real)
    requires HonestGate(s, g) && Knows(g, id) && (stored.Some? ==> Honest(s, id, stored.value))
    ensures var polled := Poll(g, id, stored, late, now);
            polled.Some? ==> HonestGate(s, polled.value) && Knows(polled.value, id)
  {
  }

  lemma StepKeepsInv(s: System, a: Action)
    requires Inv(s)
    ensures Inv(Step(s, a))
  {
    StepExtends(s, a);
    var t := Step(s, a);
    forall w | w in t.gates
      ensures HonestGate(t, t.gates[w])
    {
      GateStaysHonest(s, a, w);
    }
    RecordsStayHonest(s, a);
    WritesStayDecisive(s, a);
    if a.PollJob? {
      PollExecutesApproved(s, a);
    }
  }

  lemma WritesStayDecisive(s: System, a: Action)
    requires Decisive(s.writes)
    ensures Decisive(Step(s, a).writes)
  {
    var ws, ws' := s.writes, Step(s, a).writes;
    if a.Deliver? {
      forall k | 0 <= k < |ws'| && ws'[k].Decision?
        ensures ws'[k].status in {Approved, Rejected}
      {
        assert ws'[k] == ws[k] || ws'[k] == ws[k + 1];
      }
    }
  }

  lemma GateStaysHonest(s: System, a: Action, w: nat)
    requires Inv(s) && w in Step(s, a).gates
    ensures HonestGate(Step(s, a), Step(s, a).gates[w])
  {
    StepExtends(s, a);
    var t := Step(s, a);
    if w in s.gates {
      HonestStays(s, t, s.gates[w]);
    }
    if a.GateCall? && a.worker == w && w in s.gates && Decidable(s.gates[w], a.call.id) {
      CallKeepsHonest(s, t, s.gates[w], a.call, a.now);
    }
    PolledGateStaysHonest(s, a, w);
  }

  lemma PolledGateStaysHonest(s: System, a: Action, w: nat)
    requires Inv(s)
    ensures a.PollJob? && w in s.gates ==> w in Step(s, a).gates && HonestGate(Step(s, a), Step(s, a).gates[w])
  {
    StepExtends(s, a);
    var t := Step(s, a);
    if w in s.gates {
      HonestStays(s, t, s.gates[w]);
    }
    if a.PollJob? && a.id in s.jobs && s.jobs[a.id].worker == w && w in s.gates && Knows(s.gates[w], a.id) {
      var stored := if a.up && a.id in s.records then Some(s.records[a.id]) else None;
      PollKeepsHonest(s, s.gates[w], a.id, stored, a.late, a.now);
      var polled := Poll(s.gates[w], a.id, stored, a.late, a.now);
      if polled.Some? {
        HonestStays(s, t, polled.value);
      }
    }
  }

  lemma RecordsStayHonest(s: System, a: Action)
    requires Inv(s)
    ensures forall id :: id in Step(s, a).records ==> Honest(Step(s, a), id, Step(s, a).records[id])
  {
    StepExtends(s, a);
  }

  lemma PollExecutesApproved(s: System, a: Action)
    requires Inv(s) && a.PollJob?
    ensures forall id :: id in Step(s, a).jobs && Step(s, a).jobs[id].phase == Executed ==> id in s.approved
  {
    if a.id in s.jobs && s.jobs[a.id].worker in s.gates && Knows(s.gates[s.jobs[a.id].worker], a.id) {
      var stored := if a.up && a.id in s.records then Some(s.records[a.id]) else None;
      PollKeepsHonest(s, s.gates[s.jobs[a.id].worker], a.id, stored, a.late, a.now);
    }
  }

  lemma {:induction false} RunKeepsInv(s: System, schedule: seq<Action>)
    requires Inv(s)
    ensures Inv(Run(s, schedule))
    decreases |schedule|
  {
    if schedule != [] {
      RunKeepsInv(s, schedule[..|schedule| - 1]);
      StepKeepsInv(Run(s, schedule[..|schedule| - 1]), schedule[|schedule| - 1]);
    }
  }

  // ---------------------------------------------------------------------------------------------
  // Main result: no execution without an earlier approval of the same request
  // ---------------------------------------------------------------------------------------------

  /** The step records "approved" for this id: a gate's approve call, or an approval landing in the store. */
  predicate Approves(s: System, a: Action, id: string) {
    || (a.GateCall? && a.call.CallApprove? && a.call.id == id && a.worker in s.gates
        && Decidable(s.gates[a.worker], id))
    || (a.Deliver? && a.ok && a.k < |s.writes| && s.writes[a.k].Decision? && s.writes[a.k].id == id
        && s.writes[a.k].status == Approved && id in s.records)
  }

  lemma {:induction false} ApprovedHasCause(s: System, schedule: seq<Action>, id: string) returns (k: nat)
    requires id !in s.approved && id in Run(s, schedule).approved
    ensures k < |schedule| && Approves(Run(s, schedule[..k]), schedule[k], id)
    decreases |schedule|
  {
    var n := |schedule| - 1;
    if id in Run(s, schedule[..n]).approved {
      k := ApprovedHasCause(s, schedule[..n], id);
      assert schedule[..n][..k] == schedule[..k];
    } else {
      k := n;
    }
  }

  ghost predicate HasExecuted(s: System, id: string) {
    id in s.jobs && s.jobs[id].phase == Executed
  }

  lemma {:induction false} ExecutedStays(s: System, schedule: seq<Action>, k: nat, id: string)
    requires k <= |schedule| && HasExecuted(Run(s, schedule[..k]), id)
    ensures HasExecuted(Run(s, schedule), id)
    decreases |schedule|
  {
    var n := |schedule| - 1;
    if k <= n {
      assert schedule[..n][..k] == schedule[..k];
      ExecutedStays(s, schedule[..n], k, id);
      StepExtends(Run(s, schedule[..n]), schedule[n]);
    } else {
      assert schedule[..k] == schedule;
    }
  }

  /**
   * In every run, whatever the interleaving of waiters, deciders, endpoints, restarts, lost writes and failed polls: if
   * the agent has executed the action of request `id`, some earlier step, taken before the execution, recorded
   * "approved" for that very id.
   */
  lemma {:induction false} ExecutionFollowsApproval(s: System, schedule: seq<Action>, id: string) returns (k: nat)
    requires Initial(s) && HasExecuted(Run(s, schedule), id)
    ensures k < |schedule| && Approves(Run(s, schedule[..k]), schedule[k], id)
    ensures !HasExecuted(Run(s, schedule[..k]), id)
    decreases |schedule|
  {
    var n := |schedule| - 1;
    var before := schedule[..n];
    if HasExecuted(Run(s, before), id) {
      k := ExecutionFollowsApproval(s, before, id);
    } else {
      RunKeepsInv(s, before);
      ExecutesOnlyApproved(Run(s, before), schedule[n], id);
      k := CauseBeforeExecution(s, before, id);
    }
    assert before[..k] == schedule[..k];
  }

  /** The step that executes finds the approval already recorded. */
  lemma ExecutesOnlyApproved(s: System, a: Action, id: string)
    requires Inv(s) && HasExecuted(Step(s, a), id) && !HasExecuted(s, id)
    ensures id in s.approved
  {
    assert a.PollJob?;
    PollExecutesApproved(s, a);
  }

  lemma CauseBeforeExecution(s: System, schedule: seq<Action>, id: string) returns (k: nat)
    requires id !in s.approved && id in Run(s, schedule).approved && !HasExecuted(Run(s, schedule), id)
    ensures k < |schedule| && Approves(Run(s, schedule[..k]), schedule[k], id)
    ensures !HasExecuted(Run(s, schedule[..k]), id)
  {
    k := ApprovedHasCause(s, schedule, id);
    if HasExecuted(Run(s, schedule[..k]), id) {
      ExecutedStays(s, schedule, k, id);
    }
  }

  /** The approved request is the one the agent filed: same agent and same action in every copy, in every run. */
  lemma CopiesDescribeTheJob(s: System, schedule: seq<Action>, id: string)
    requires Initial(s)
    ensures var t := Run(s, schedule);
            && (id in t.records ==> id in t.jobs && t.records[id].action == t.jobs[id].action
                                    && t.records[id].agentId == t.jobs[id].agentId)
            && (forall w :: w in t.gates && Knows(t.gates[w], id) ==>
                  id in t.jobs && Lookup(t.gates[w], id).action == t.jobs[id].action
                  && Lookup(t.gates[w], id).agentId == t.jobs[id].agentId)
  {
    RunKeepsInv(s, schedule);
  }

  // ---------------------------------------------------------------------------------------------
  // How often one request can be decided
  // ---------------------------------------------------------------------------------------------

  /** An approve or reject call on a gate that returns True. */
  predicate Wins(s: System, a: Action, id: string) {
    && a.GateCall? && !a.call.CallMoreInfo? && a.call.id == id
    && a.worker in s.gates && Decidable(s.gates[a.worker], id)
  }

  function WinCount(s: System, schedule: seq<Action>, id: string): nat
    decreases |schedule|
  {
    if schedule == [] then 0
    else
      var n := |schedule| - 1;
      WinCount(s, schedule[..n], id) + if Wins(Run(s, schedule[..n]), schedule[n], id) then 1 else 0
  }

  /** The workers whose gates would still decide the request. */
  function DecidableAt(s: System, id: string): set<nat> {
    set w | w in s.gates && Decidable(s.gates[w], id)
  }

  /** A restart that reads the request from the store as pending and so makes a gate able to decide it. */
  predicate Reopens(s: System, a: Action, id: string) {
    && a.Restart? && a.worker !in DecidableAt(s, id)
    && id in a.ids && id in s.records && s.records[id].status == Pending
  }

  function Reopenings(s: System, schedule: seq<Action>, id: string): nat
    decreases |schedule|
  {
    if schedule == [] then 0
    else
      var n := |schedule| - 1;
      Reopenings(s, schedule[..n], id) + if Reopens(Run(s, schedule[..n]), schedule[n], id) then 1 else 0
  }

  predicate RestartFree(schedule: seq<Action>) {
    forall k :: 0 <= k < |schedule| ==> !schedule[k].Restart?
  }

  lemma CallSpends(g: Gate, c: Call, now: real, id: string)
    ensures Decidable(AfterCall(g, c, now), id) ==> Decidable(g, id) && (c.id == id ==> !Decidable(g, c.id))
  {
  }

  lemma PollSpends(g: Gate, id: string, stored: Option<Request>, late: bool, now: real, other: string)
    requires Knows(g, id)
    ensures var polled := Poll(g, id, stored, late, now);
            polled.Some? && Decidable(polled.value, other) ==> Decidable(g, other)
  {
  }

  /** No step but a reopening restart makes a gate able to decide a filed request, and a win uses one gate up. */
  lemma StepSpends(s: System, a: Action, id: string, w: nat)
    requires id in s.jobs && w in DecidableAt(Step(s, a), id)
    ensures w in DecidableAt(s, id) || (Reopens(s, a, id) && w == a.worker)
    ensures Wins(s, a, id) ==> w != a.worker
  {
    match a
    case GateCall(worker, c, now) =>
      if worker == w && worker in s.gates && Decidable(s.gates[worker], c.id) {
        CallSpends(s.gates[worker], c, now, id);
      }
    case PollJob(polled, up, late, now) =>
      if polled in s.jobs && s.jobs[polled].worker == w && w in s.gates && Knows(s.gates[w], polled) {
        var stored := if up && polled in s.records then Some(s.records[polled]) else None;
        PollSpends(s.gates[w], polled, stored, late, now, id);
      }
    case _ =>
  }

  lemma StepSpendsGates(s: System, a: Action, id: string)
    requires id in s.jobs
    ensures |DecidableAt(Step(s, a), id)| + (if Wins(s, a, id) then 1 else 0)
            <= |DecidableAt(s, id)| + if Reopens(s, a, id) then 1 else 0
  {
    var before, after := DecidableAt(s, id), DecidableAt(Step(s, a), id);
    forall w | w in after
      ensures w in before || (Reopens(s, a, id) && w == a.worker)
      ensures Wins(s, a, id) ==> w != a.worker
    {
      StepSpends(s, a, id, w);
    }
    if Wins(s, a, id) {
      SubsetCardinality(after, before - {a.worker});
    } else if Reopens(s, a, id) {
      SubsetCardinality(after, before + {a.worker});
    } else {
      SubsetCardinality(after, before);
    }
  }

  /**
   * In every run, restarts included: the approve and reject calls that return True for a filed request are at most as
   * many as the gates that could decide it at the start and the restarts that reopened it.
   */
  lemma {:induction false} WinsAreBounded(s: System, schedule: seq<Action>, id: string)
    requires id in s.jobs
    ensures id in Run(s, schedule).jobs
    ensures |DecidableAt(Run(s, schedule), id)| + WinCount(s, schedule, id)
            <= |DecidableAt(s, id)| + Reopenings(s, schedule, id)
    decreases |schedule|
  {
    if schedule != [] {
      var n := |schedule| - 1;
      WinsAreBounded(s, schedule[..n], id);
      StepExtends(Run(s, schedule[..n]), schedule[n]);
      StepSpendsGates(Run(s, schedule[..n]), schedule[n], id);
    }
  }

  lemma {:induction false} NothingReopened(s: System, schedule: seq<Action>, id: string)
    requires RestartFree(schedule)
    ensures Reopenings(s, schedule, id) == 0
    decreases |schedule|
  {
    if schedule != [] {
      NothingReopened(s, schedule[..|schedule| - 1], id);
    }
  }

  /** Two gates that can decide a request both do so when asked one after the other. */
  lemma BothGatesDecide(s: System, id: string, v: nat, w: nat) returns (schedule: seq<Action>)
    requires v != w && v in DecidableAt(s, id) && w in DecidableAt(s, id)
    ensures RestartFree(schedule) && WinCount(s, schedule, id) == 2
  {
    var first, second := GateCall(v, CallApprove(id, "", None), 0.0), GateCall(w, CallReject(id, "", None), 0.0);
    schedule := [first, second];
    assert schedule[..1] == [first] && [first][..0] == [];
    assert Run(s, [first]) == Step(s, first) && Step(s, first).gates[w] == s.gates[w];
    assert WinCount(s, [first], id) == 1;
  }

  /** Without restarts a filed request is decided at most once, whatever the schedule, exactly if at most one gate can still decide it. */
  lemma RestartFreeOnceIff(s: System, id: string)
    requires id in s.jobs
    ensures (forall schedule :: RestartFree(schedule) ==> WinCount(s, schedule, id) <= 1) <==> |DecidableAt(s, id)| <= 1
  {
    forall schedule | RestartFree(schedule)
      ensures WinCount(s, schedule, id) <= |DecidableAt(s, id)|
    {
      WinsAreBounded(s, schedule, id);
      NothingReopened(s, schedule, id);
    }
    if |DecidableAt(s, id)| > 1 {
      var schedule := SomeGatesDecide(s, id);
      assert RestartFree(schedule) && WinCount(s, schedule, id) == 2;
    }
  }

  lemma SomeGatesDecide(s: System, id: string) returns (schedule: seq<Action>)
    requires |DecidableAt(s, id)| > 1
    ensures RestartFree(schedule) && WinCount(s, schedule, id) == 2
  {
    var v :| v in DecidableAt(s, id);
    var w :| w in DecidableAt(s, id) - {v} by {
      assert |DecidableAt(s, id) - {v}| > 0;
    }
    schedule := BothGatesDecide(s, id, v, w);
  }

  // ---------------------------------------------------------------------------------------------
  // With restarts: what the store still shows as pending can be decided again
  // ---------------------------------------------------------------------------------------------

  /** A filed request whose record is not pending never becomes pending again, so no restart reopens it. */
  lemma SettledStays(s: System, a: Action, id: string)
    requires id in s.jobs && Decisive(s.writes) && !ReadsPending(s, id)
    ensures id in Step(s, a).jobs && Decisive(Step(s, a).writes) && !ReadsPending(Step(s, a), id)
    ensures !Reopens(s, a, id)
  {
    StepExtends(s, a);
    WritesStayDecisive(s, a);
  }

  lemma {:induction false} SettledIsNeverReopened(s: System, schedule: seq<Action>, id: string)
    requires id in s.jobs && Decisive(s.writes) && !ReadsPending(s, id)
    ensures var t := Run(s, schedule); id in t.jobs && Decisive(t.writes) && !ReadsPending(t, id)
    ensures Reopenings(s, schedule, id) == 0
    decreases |schedule|
  {
    if schedule != [] {
      var n := |schedule| - 1;
      SettledIsNeverReopened(s, schedule[..n], id);
      SettledStays(Run(s, schedule[..n]), schedule[n], id);
    }
  }

  /** Restart a worker, approve there, restart it again before the approval lands, and reject there. */
  function Relapse(id: string): seq<Action> {
    [Restart(0, {id}), GateCall(0, CallApprove(id, "a", None), 1.0), Restart(0, {id}),
     GateCall(0, CallReject(id, "b", None), 2.0)]
  }

  lemma PendingIsDecidedTwice(s: System, id: string)
    requires ReadsPending(s, id)
    ensures WinCount(s, Relapse(id), id) == 2
  {
    var c := Relapse(id);
    var s1 := Step(s, c[0]);
    var s2 := Step(s1, c[1]);
    var s3 := Step(s2, c[2]);
    WinsOfFour(s, c[0], c[1], c[2], c[3], id);
    assert s1.gates[0] == Reloaded(s.records, {id}) && s1.records == s.records;
    assert Decidable(s1.gates[0], id) && s2.records == s.records;
    assert s3.gates[0] == Reloaded(s.records, {id}) && Decidable(s3.gates[0], id);
  }

  /**
   * In every state a run can reach: a filed request is decided at most once from then on, over all schedules with all
   * their restarts, if and only if at most one gate can still decide it and the store does not show it as pending.
   */
  lemma AtMostOneWinIff(s: System, id: string)
    requires Inv(s) && id in s.jobs
    ensures (forall schedule :: WinCount(s, schedule, id) <= 1) <==> |DecidableAt(s, id)| <= 1 && !ReadsPending(s, id)
  {
    if ReadsPending(s, id) {
      PendingIsDecidedTwice(s, id);
      assert WinCount(s, Relapse(id), id) == 2;
    } else {
      forall schedule
        ensures WinCount(s, schedule, id) <= |DecidableAt(s, id)|
      {
        WinsAreBounded(s, schedule, id);
        SettledIsNeverReopened(s, schedule, id);
      }
      if |DecidableAt(s, id)| > 1 {
        var schedule := SomeGatesDecide(s, id);
        assert WinCount(s, schedule, id) == 2;
      }
    }
  }

  // ---------------------------------------------------------------------------------------------
  // The endpoints
  // ---------------------------------------------------------------------------------------------

  /** An approve or reject endpoint answers with success. */
  predicate Accepts(s: System, a: Action, id: string) {
    (a.HttpApprove? || a.HttpReject?) && a.id == id && ReadsPending(s, id)
  }

  function AcceptCount(s: System, schedule: seq<Action>, id: string): nat
    decreases |schedule|
  {
    if schedule == [] then 0
    else
      var n := |schedule| - 1;
      AcceptCount(s, schedule[..n], id) + if Accepts(Run(s, schedule[..n]), schedule[n], id) then 1 else 0
  }

  lemma {:induction false} SettledIsNeverAccepted(s: System, schedule: seq<Action>, id: string)
    requires id in s.jobs && Decisive(s.writes) && !ReadsPending(s, id)
    ensures AcceptCount(s, schedule, id) == 0
    decreases |schedule|
  {
    if schedule != [] {
      SettledIsNeverAccepted(s, schedule[..|schedule| - 1], id);
      SettledIsNeverReopened(s, schedule[..|schedule| - 1], id);
    }
  }

  /** While the store shows the request as pending, both endpoints accept it one after the other. */
  lemma PendingIsAcceptedTwice(s: System, id: string)
    requires ReadsPending(s, id)
    ensures var both := [HttpApprove(id, "a", None, 1.0), HttpReject(id, "b", None, 2.0)];
            AcceptCount(s, both, id) == 2
  {
    var first, second := HttpApprove(id, "a", None, 1.0), HttpReject(id, "b", None, 2.0);
    assert [first, second][..1] == [first] && [first][..0] == [];
    assert Run(s, [first]) == Step(s, first) && ReadsPending(Step(s, first), id);
    assert AcceptCount(s, [first], id) == 1;
  }

  /**
   * In every state a run can reach: the endpoints accept at most one decision of a filed request from then on if and
   * only if the store does not show it as pending, and then they accept none: a decision or question that has landed
   * closes them for good.
   */
  lemma EndpointsAcceptIff(s: System, id: string)
    requires Inv(s) && id in s.jobs
    ensures (forall schedule :: AcceptCount(s, schedule, id) <= 1) <==> !ReadsPending(s, id)
    ensures (forall schedule :: AcceptCount(s, schedule, id) == 0) <==> !ReadsPending(s, id)
  {
    if ReadsPending(s, id) {
      PendingIsAcceptedTwice(s, id);
    } else {
      forall schedule
        ensures AcceptCount(s, schedule, id) == 0
      {
        SettledIsNeverAccepted(s, schedule, id);
      }
    }
  }

  /** A gate's own rejection does not bind its waiter: the action is executed exactly if the poll reads an approved record. */
  lemma RejectionHoldsUnlessStored(s: System, id: string, up: bool, late: bool, now: real)
    requires id in s.jobs && s.jobs[id].phase == Waiting
    requires s.jobs[id].worker in s.gates && Knows(s.gates[s.jobs[id].worker], id)
    requires Lookup(s.gates[s.jobs[id].worker], id).status == Rejected
    ensures HasExecuted(Step(s, PollJob(id, up, late, now)), id) <==>
              up && id in s.records && s.records[id].status == Approved
  {
  }

  /** File, approve over HTTP, reject on the gate, let the HTTP decision land, poll. */
  function Overruled(r: Request): seq<Action> {
    [Submit(0, r, true), HttpApprove(r.id, "a", None, 1.0), GateCall(0, CallReject(r.id, "b", None), 2.0),
     Deliver(0, true)] + [PollJob(r.id, true, false, 3.0)]
  }

  /** So a rejection that returned True can be followed by the execution of the rejected action. */
  lemma RejectedIsExecuted(s: System, r: Request)
    requires Initial(s) && s.gates.Keys == {0} && r.status == Pending
    ensures HasExecuted(Run(s, Overruled(r)), r.id) && WinCount(s, Overruled(r), r.id) == 1
  {
    var c := Overruled(r)[..4];
    assert c == [Overruled(r)[0], Overruled(r)[1], Overruled(r)[2], Overruled(r)[3]];
    assert Overruled(r)[..|Overruled(r)| - 1] == c;
    var s1 := Step(s, c[0]);
    var s2 := Step(s1, c[1]);
    var s3 := Step(s2, c[2]);
    var s4 := Step(s3, c[3]);
    RunFour(s, c[0], c[1], c[2], c[3]);
    WinsOfFour(s, c[0], c[1], c[2], c[3], r.id);
    assert s1.gates == s.gates[0 := File(s.gates[0], r)] && s1.records == map[r.id := r] && s1.writes == [];
    assert s2.gates == s1.gates && ReadsPending(s1, r.id);
    assert s2.writes == [Decision(r.id, Approved, 1.0, "a", None)];
    assert s3.writes[0] == s2.writes[0] && s3.records == s1.records && s3.jobs == s1.jobs;
    assert s4.records[r.id].status == Approved && s4.gates == s3.gates;
    RejectionHoldsUnlessStored(s4, r.id, true, false, 3.0);
  }

  lemma UnfiledIsUndecidable(s: System, id: string)
    requires Inv(s) && id !in s.jobs
    ensures DecidableAt(s, id) == {}
  {
    forall w | w in s.gates
      ensures id !in s.gates[w].pending
    {
      assert HonestGate(s, s.gates[w]);
    }
  }

  lemma FilingOpensOneGate(s: System, a: Action, id: string)
    requires Inv(s) && id !in s.jobs && id in Step(s, a).jobs
    ensures |DecidableAt(Step(s, a), id)| <= 1
  {
    UnfiledIsUndecidable(s, id);
    forall w | w in DecidableAt(Step(s, a), id)
      ensures w == a.worker
    {
      assert w in s.gates ==> w !in DecidableAt(s, id);
    }
    SubsetCardinality(DecidableAt(Step(s, a), id), {a.worker});
  }

  /**
   * In every run from the start, with any number of workers: the approve and reject calls that return True for one id
   * are at most one more than the restarts that reopened it.
   */
  lemma {:induction false} DecidedOncePerOpening(s: System, schedule: seq<Action>, id: string)
    requires Initial(s)
    ensures |DecidableAt(Run(s, schedule), id)| + WinCount(s, schedule, id)
            <= (if id in Run(s, schedule).jobs then 1 else 0) + Reopenings(s, schedule, id)
    decreases |schedule|
  {
    if schedule != [] {
      var n := |schedule| - 1;
      var t, a := Run(s, schedule[..n]), schedule[n];
      DecidedOncePerOpening(s, schedule[..n], id);
      RunKeepsInv(s, schedule[..n]);
      if id in t.jobs {
        StepExtends(t, a);
        StepSpendsGates(t, a, id);
      } else {
        UnfiledIsUndecidable(t, id);
        StepKeepsInv(t, a);
        if id in Step(t, a).jobs {
          FilingOpensOneGate(t, a, id);
        } else {
          UnfiledIsUndecidable(Step(t, a), id);
        }
      }
    } else {
      UnfiledIsUndecidable(s, id);
    }
  }

  /** One worker: file, approve, restart while the store still shows the request as pending, reject. */
  function Forgotten(r: Request): seq<Action> {
    [Submit(0, r, true), GateCall(0, CallApprove(r.id, "a", None), 1.0), Restart(0, {r.id}),
     GateCall(0, CallReject(r.id, "b", None), 2.0)]
  }

  /** A restart between an approval and its store write lets a single worker decide twice. */
  lemma RestartDecidesTwice(s: System, r: Request)
    requires Initial(s) && s.gates.Keys == {0} && r.status == Pending
    ensures WinCount(s, Forgotten(r), r.id) == 2
    ensures var t := Run(s, Forgotten(r));
            && t.gates.Keys == {0} && r.id in t.approved
            && Knows(t.gates[0], r.id) && Lookup(t.gates[0], r.id).status == Rejected
  {
    var c := Forgotten(r);
    var s1 := Step(s, c[0]);
    var s2 := Step(s1, c[1]);
    var s3 := Step(s2, c[2]);
    RunFour(s, c[0], c[1], c[2], c[3]);
    WinsOfFour(s, c[0], c[1], c[2], c[3], r.id);
    assert s1.gates == s.gates[0 := File(s.gates[0], r)] && s1.records == s.records[r.id := r];
    assert Decidable(s1.gates[0], r.id) && s2.records == s1.records;
    assert s3.gates[0] == Reloaded(s2.records, {r.id}) && Decidable(s3.gates[0], r.id);
  }

  lemma WinsOfFour(s: System, a: Action, b: Action, c: Action, d: Action, id: string)
    ensures var s1 := Step(s, a); var s2 := Step(s1, b); var s3 := Step(s2, c);
            WinCount(s, [a, b, c, d], id) ==
              (if Wins(s, a, id) then 1 else 0) + (if Wins(s1, b, id) then 1 else 0)
              + (if Wins(s2, c, id) then 1 else 0) + if Wins(s3, d, id) then 1 else 0
  {
    WinsOfTwo(s, [], a, b, id);
    assert [] + [a, b] == [a, b];
    RunTwo(s, [], a, b);
    WinsOfTwo(s, [a, b], c, d, id);
    assert [a, b] + [c, d] == [a, b, c, d];
  }

  lemma WinsOfTwo(s: System, schedule: seq<Action>, a: Action, b: Action, id: string)
    ensures var t := Run(s, schedule);
            WinCount(s, schedule + [a, b], id) ==
              WinCount(s, schedule, id) + (if Wins(t, a, id) then 1 else 0) + if Wins(Step(t, a), b, id) then 1 else 0
  {
    var all := schedule + [a, b];
    assert all[..|all| - 1] == schedule + [a] && (schedule + [a])[..|schedule|] == schedule;
  }

  /** File a request on worker 0, restart worker 1 so that it loads it, then approve it on one and reject it on the other. */
  function Conflict(r: Request): seq<Action> {
    [Submit(0, r, true), Restart(1, {r.id}),
     GateCall(0, CallApprove(r.id, "a", None), 1.0), GateCall(1, CallReject(r.id, "b", None), 2.0)]
  }

  /** With two gates both calls succeed, and the two workers disagree for good. */
  lemma TwoGatesDecideTwice(s: System, r: Request)
    requires Initial(s) && s.gates.Keys == {0, 1} && r.status == Pending
    ensures var t := Run(s, Conflict(r));
            && t.gates.Keys == {0, 1}
            && Knows(t.gates[0], r.id) && Lookup(t.gates[0], r.id).status == Approved
            && Knows(t.gates[1], r.id) && Lookup(t.gates[1], r.id).status == Rejected
  {
    var c := Conflict(r);
    var s1 := Step(s, c[0]);
    var s2 := Step(s1, c[1]);
    var s3 := Step(s2, c[2]);
    RunFour(s, c[0], c[1], c[2], c[3]);
    assert s1.gates == s.gates[0 := File(s.gates[0], r)] && s1.records == s.records[r.id := r];
    assert s2.gates == s1.gates[1 := Reloaded(s1.records, {r.id})] && s2.gates[0] == s1.gates[0];
    assert Decidable(s2.gates[0], r.id) && Decidable(s2.gates[1], r.id);
    assert s3.gates[1] == s2.gates[1];
  }

  lemma RunTwo(s: System, schedule: seq<Action>, a: Action, b: Action)
    ensures Run(s, schedule + [a, b]) == Step(Step(Run(s, schedule), a), b)
  {
    var all := schedule + [a, b];
    assert all[..|all| - 1] == schedule + [a] && (schedule + [a])[..|schedule|] == schedule;
  }

  lemma RunFour(s: System, a: Action, b: Action, c: Action, d: Action)
    ensures Run(s, [a, b, c, d]) == Step(Step(Step(Step(s, a), b), c), d)
  {
    assert Run(s, [a, b]) == Step(Step(s, a), b) by {
      RunTwo(s, [], a, b);
      assert [] + [a, b] == [a, b];
    }
    RunTwo(s, [a, b], c, d);
    assert [a, b] + [c, d] == [a, b, c, d];
  }

  // ---------------------------------------------------------------------------------------------
  // Decisions reach the waiter
  // ---------------------------------------------------------------------------------------------

  /** The job still waits, on a request its worker's gate has. */
  ghost predicate Awaits(s: System, id: string) {
    && id in s.jobs && s.jobs[id].phase == Waiting
    && s.jobs[id].worker in s.gates && Knows(s.gates[s.jobs[id].worker], id)
  }

  /**
   * An endpoint's decision that lands in the store is what the next poll that reads the store acts on, on whatever
   * worker the job waits and even if its time is up: an approval executes the job and a rejection refuses it.
   */
  lemma EndpointDecides(s: System, id: string, approve: bool, who: string, notes: Option<string>, now: real, late: bool)
    requires Awaits(s, id) && ReadsPending(s, id)
    ensures var accepted := Step(s, if approve then HttpApprove(id, who, notes, now) else HttpReject(id, who, notes, now));
            var landed := Step(accepted, Deliver(|s.writes|, true));
            var polled := Step(landed, PollJob(id, true, late, now));
            var status := if approve then Approved else Rejected;
            && id in landed.records
            && landed.records[id] == s.records[id].(status := status, decidedAt := Some(now), decidedBy := Some(who),
                                                    notes := notes)
            && landed.writes == s.writes
            && id in polled.jobs
            && polled.jobs[id].phase == if approve then Executed else Refused
  {
    var status := if approve then Approved else Rejected;
    var w := Decision(id, status, now, who, notes);
    var accepted := Step(s, if approve then HttpApprove(id, who, notes, now) else HttpReject(id, who, notes, now));
    assert accepted.writes == s.writes + [w] && accepted.writes[|s.writes|] == w;
    assert Without(accepted.writes, |s.writes|) == s.writes;
  }

  /** A decision on the gate where the job waits is what its next poll acts on if the store shows none. */
  lemma GateDecides(s: System, id: string, approve: bool, who: string, notes: Option<string>, now: real, up: bool, late: bool)
    requires Awaits(s, id) && Decidable(s.gates[s.jobs[id].worker], id)
    requires up ==> id !in s.records || ReadsPending(s, id)
    ensures var call := if approve then CallApprove(id, who, notes) else CallReject(id, who, notes);
            var decided := Step(s, GateCall(s.jobs[id].worker, call, now));
            var polled := Step(decided, PollJob(id, up, late, now));
            && decided.writes == s.writes + [Decision(id, if approve then Approved else Rejected, now, who, notes)]
            && id in polled.jobs
            && polled.jobs[id].phase == if approve then Executed else Refused
  {
  }

  /** Without any decision a poll refuses the job exactly if its time is up, and otherwise changes nothing. */
  lemma UndecidedPoll(s: System, id: string, up: bool, late: bool, now: real)
    requires Awaits(s, id) && Lookup(s.gates[s.jobs[id].worker], id).status == Pending
    requires up ==> id !in s.records || ReadsPending(s, id)
    ensures var polled := Step(s, PollJob(id, up, late, now));
            if late then id in polled.jobs && polled.jobs[id].phase == Refused else polled == s
  {
  }

  /**
   * A restarted worker has exactly the listed records that the store has, whatever their status, without their decision
   * and with nothing known; its waiters are gone, and nothing else changes.
   */
  lemma RestartReloads(s: System, w: nat, ids: set<string>)
    ensures var t := Step(s, Restart(w, ids));
            && w in t.gates
            && t.gates[w].pending.Keys == ids * s.records.Keys
            && (forall id :: id in ids && id in s.records ==>
                  t.gates[w].pending[id] == s.records[id].(decidedAt := None, decidedBy := None, notes := None))
            && t.gates[w].completed == map[] && t.gates[w].knownAgents == {} && t.gates[w].knownDomains == {}
            && t.records == s.records && t.writes == s.writes
            && (forall v :: v in s.gates && v != w ==> v in t.gates && t.gates[v] == s.gates[v])
            && t.jobs.Keys == s.jobs.Keys
            && (forall id :: id in s.jobs ==>
                  t.jobs[id] == if s.jobs[id].worker == w && s.jobs[id].phase == Waiting then s.jobs[id].(phase := Lost)
                                else s.jobs[id])
  {
  }
}
