/** Everything that can happen to the requests of one gate when all decisions go through it (core/approval.py). */
module ApprovalRuns {
  import opened Common
  import opened Approval

  /** The gate, its store, and a history of the ids ever created. */
  datatype Site = Site(gate: Gate, records: map<string, Request>, created: set<string>)

  /** `saved` and `up` say whether the store could be written or read. */
  datatype Op =
    | Create(r: Request, saved: bool)
    | Approve(id: string, who: string, notes: Option<string>, now: real, saved: bool)
    | Reject(id: string, who: string, notes: Option<string>, now: real, saved: bool)
    | AskInfo(id: string, questions: string)
    | WaiterPoll(id: string, up: bool, late: bool, now: real)

  function DecideSite(s: Site, id: string, status: Status, who: string, notes: Option<string>, now: real, saved: bool): Site
    requires Decidable(s.gate, id)
  {
    Site(Decide(s.gate, id, status, who, notes, now),
         if saved && id in s.records then s.records[id := Decided(s.records[id], status, Some(now), Some(who), notes)]
         else s.records,
         s.created)
  }

  /** One operation; ids are drawn fresh, so creating a known id does not happen. */
  function Step(s: Site, op: Op): Site {
    match op
    case Create(r, saved) =>
      if r.id in s.created || r.status != Pending then s
      else Site(File(s.gate, r), if saved then s.records[r.id := r] else s.records, s.created + {r.id})
    case Approve(id, who, notes, now, saved) =>
      if Decidable(s.gate, id) then DecideSite(s, id, Approved, who, notes, now, saved) else s
    case Reject(id, who, notes, now, saved) =>
      if Decidable(s.gate, id) then DecideSite(s, id, Rejected, who, notes, now, saved) else s
    case AskInfo(id, questions) =>
      if Decidable(s.gate, id) then Site(AskMore(s.gate, id, questions), s.records, s.created) else s
    case WaiterPoll(id, up, late, now) =>
      if !Knows(s.gate, id) then s
      else
        var polled := Poll(s.gate, id, if up && id in s.records then Some(s.records[id]) else None, late, now);
        if polled.Some? then Site(polled.value, s.records, s.created) else s
  }

  /** An approve or reject call that returns True for this id. */
  predicate Wins(s: Site, op: Op, id: string) {
    (op.Approve? || op.Reject?) && op.id == id && Decidable(s.gate, id)
  }

  function Run(s: Site, ops: seq<Op>): Site
    decreases |ops|
  {
    if ops == [] then s else Run(Step(s, ops[0]), ops[1..])
  }

  function WinCount(s: Site, ops: seq<Op>, id: string): nat
    decreases |ops|
  {
    if ops == [] then 0
    else (if Wins(s, ops[0], id) then 1 else 0) + WinCount(Step(s, ops[0]), ops[1..], id)
  }

  const START := Site(Gate(map[], map[], {}, {}), map[], {})

  // ---------------------------------------------------------------------------------------------
  // The invariant
  // ---------------------------------------------------------------------------------------------

  predicate SameDecision(a: Request, b: Request) {
    a.status == b.status && a.decidedAt == b.decidedAt && a.decidedBy == b.decidedBy && a.notes == b.notes
  }

  /**
   * Pending and completed are disjoint and hold exactly the created ids; completed requests have a final status; a
   * decision in the store is the gate's own.
   */
  ghost predicate SiteInv(s: Site) {
    && s.gate.pending.Keys !! s.gate.completed.Keys
    && s.gate.pending.Keys + s.gate.completed.Keys == s.created
    && (forall id :: id in s.gate.pending ==> s.gate.pending[id].status in {Pending, MoreInfo})
    && (forall id :: id in s.gate.completed ==> s.gate.completed[id].status in {Approved, Rejected, Expired})
    && s.records.Keys <= s.created
    && (forall id :: id in s.records && s.records[id].status != Pending ==>
          && s.records[id].status in {Approved, Rejected}
          && id in s.gate.completed
          && SameDecision(s.records[id], s.gate.completed[id]))
  }

  /** A request whose fate is sealed: completed, or waiting for information that can no longer be acted on. */
  predicate Closed(s: Site, id: string) {
    Knows(s.gate, id) && Lookup(s.gate, id).status != Pending
  }

  lemma DecideKeepsInv(s: Site, id: string, status: Status, who: string, notes: Option<string>, now: real, saved: bool)
    requires SiteInv(s) && Decidable(s.gate, id) && status in {Approved, Rejected}
    ensures SiteInv(DecideSite(s, id, status, who, notes, now, saved))
  {
    var s' := DecideSite(s, id, status, who, notes, now, saved);
    assert s'.gate.pending.Keys == s.gate.pending.Keys - {id};
    assert s'.gate.completed.Keys == s.gate.completed.Keys + {id};
  }

  lemma PollKeepsInv(s: Site, op: Op)
    requires SiteInv(s) && op.WaiterPoll?
    ensures SiteInv(Step(s, op))
    ensures forall id :: Closed(s, id) ==> Step(s, op).gate == s.gate || op.id != id
  {
    if Knows(s.gate, op.id) {
      var s' := Step(s, op);
      if op.up && op.id in s.records && s.records[op.id].status != Pending {
        AdoptOwnDecision(s.gate, op.id, s.records[op.id]);
      } else if Lookup(s.gate, op.id).status == Pending && op.late {
        assert s'.gate.pending.Keys == s.gate.pending.Keys - {op.id};
        assert s'.gate.completed.Keys == s.gate.completed.Keys + {op.id};
      }
    }
  }

  lemma AdoptOwnDecision(g: Gate, id: string, stored: Request)
    requires id !in g.pending && id in g.completed && SameDecision(stored, g.completed[id])
    ensures Adopt(g, id, stored) == g
  {
    var r := g.completed[id];
    assert Decided(r, stored.status, stored.decidedAt, stored.decidedBy, stored.notes) == r;
    assert g.completed[id := r] == g.completed;
  }

  lemma StepKeepsInv(s: Site, op: Op)
    requires SiteInv(s)
    ensures SiteInv(Step(s, op))
  {
    match op
    case Create(r, saved) =>
      if r.id !in s.created && r.status == Pending {
        assert Step(s, op).gate.pending.Keys == s.gate.pending.Keys + {r.id};
      }
    case Approve(id, who, notes, now, saved) =>
      if Decidable(s.gate, id) {
        DecideKeepsInv(s, id, Approved, who, notes, now, saved);
      }
    case Reject(id, who, notes, now, saved) =>
      if Decidable(s.gate, id) {
        DecideKeepsInv(s, id, Rejected, who, notes, now, saved);
      }
    case AskInfo(id, questions) =>
      if Decidable(s.gate, id) {
        assert Step(s, op).gate.pending.Keys == s.gate.pending.Keys;
      }
    case WaiterPoll(_, _, _, _) =>
      PollKeepsInv(s, op);
  }

  /** No operation touches a closed request. */
  lemma StepKeepsClosed(s: Site, op: Op, id: string)
    requires SiteInv(s) && Closed(s, id)
    ensures Closed(Step(s, op), id)
    ensures Lookup(Step(s, op).gate, id) == Lookup(s.gate, id)
    ensures id in Step(s, op).gate.completed <==> id in s.gate.completed
  {
    match op
    case Create(_, _) =>
      assert id in s.created;
    case WaiterPoll(_, _, _, _) =>
      PollKeepsClosed(s, op, id);
    case _ =>
  }

  lemma PollKeepsClosed(s: Site, op: Op, id: string)
    requires SiteInv(s) && Closed(s, id) && op.WaiterPoll?
    ensures Closed(Step(s, op), id)
    ensures Lookup(Step(s, op).gate, id) == Lookup(s.gate, id)
    ensures id in Step(s, op).gate.completed <==> id in s.gate.completed
  {
    if op.id == id {
      PollKeepsInv(s, op);
    }
  }

  lemma WinCloses(s: Site, op: Op, id: string)
    requires SiteInv(s) && Wins(s, op, id)
    ensures Closed(Step(s, op), id)
  {
  }

  // ---------------------------------------------------------------------------------------------
  // Main results over all runs
  // ---------------------------------------------------------------------------------------------

  /** The invariant holds after every run of operations. */
  lemma {:induction false} RunKeepsInv(s: Site, ops: seq<Op>)
    requires SiteInv(s)
    ensures SiteInv(Run(s, ops))
    decreases |ops|
  {
    if ops != [] {
      StepKeepsInv(s, ops[0]);
      RunKeepsInv(Step(s, ops[0]), ops[1..]);
    }
  }

  /** Whatever follows, a closed request keeps its status and its filing place; the store can only agree with it. */
  lemma {:induction false} ClosedIsForever(s: Site, ops: seq<Op>, id: string)
    requires SiteInv(s) && Closed(s, id)
    ensures Closed(Run(s, ops), id) && Lookup(Run(s, ops).gate, id) == Lookup(s.gate, id)
    ensures id in Run(s, ops).gate.completed <==> id in s.gate.completed
    ensures WinCount(s, ops, id) == 0
    decreases |ops|
  {
    if ops != [] {
      StepKeepsInv(s, ops[0]);
      StepKeepsClosed(s, ops[0], id);
      ClosedIsForever(Step(s, ops[0]), ops[1..], id);
    }
  }

  /** In every run at most one approve or reject call returns True for an id. */
  lemma {:induction false} AtMostOneDecision(s: Site, ops: seq<Op>, id: string)
    requires SiteInv(s)
    ensures WinCount(s, ops, id) <= 1
    decreases |ops|
  {
    if ops != [] {
      StepKeepsInv(s, ops[0]);
      if Wins(s, ops[0], id) {
        WinCloses(s, ops[0], id);
        ClosedIsForever(Step(s, ops[0]), ops[1..], id);
      } else {
        AtMostOneDecision(Step(s, ops[0]), ops[1..], id);
      }
    }
  }

  /** Asking for more information is a dead end: the request stays pending, and no later call decides it. */
  lemma MoreInfoIsDeadEnd(s: Site, id: string, questions: string, ops: seq<Op>)
    requires SiteInv(s) && Decidable(s.gate, id)
    ensures var asked := Step(s, AskInfo(id, questions));
            && WinCount(asked, ops, id) == 0
            && id in Run(asked, ops).gate.pending
            && Run(asked, ops).gate.pending[id].status == MoreInfo
  {
    var asked := Step(s, AskInfo(id, questions));
    StepKeepsInv(s, AskInfo(id, questions));
    ClosedIsForever(asked, ops, id);
    RunKeepsInv(asked, ops);
  }

  /** In every run of a fresh gate: see `SiteInv`. */
  lemma EveryRunIsConsistent(ops: seq<Op>)
    ensures SiteInv(Run(START, ops))
  {
    RunKeepsInv(START, ops);
  }

  // ---------------------------------------------------------------------------------------------
  // The first-time conditions over runs
  // ---------------------------------------------------------------------------------------------

  lemma {:induction false} RunLast(s: Site, ops: seq<Op>)
    requires ops != []
    ensures Run(s, ops) == Step(Run(s, ops[..|ops| - 1]), ops[|ops| - 1])
    decreases |ops|
  {
    if |ops| == 1 {
      assert ops[1..] == [] && ops[..0] == [];
    } else {
      RunLast(Step(s, ops[0]), ops[1..]);
      assert ops[1..][..|ops| - 2] == ops[..|ops| - 1][1..];
    }
  }

  /** Operation number `i` of the run is an approve call that succeeds, on a request of this agent. */
  predicate ApprovesAgent(s: Site, ops: seq<Op>, i: nat, agentId: string)
    requires i < |ops|
  {
    var before := Run(s, ops[..i]);
    && ops[i].Approve?
    && ops[i].id in before.gate.pending
    && before.gate.pending[ops[i].id].status == Pending
    && before.gate.pending[ops[i].id].agentId == agentId
  }

  /** Operation number `i` of the run is an approve call that succeeds, on a request about this domain. */
  predicate ApprovesDomain(s: Site, ops: seq<Op>, i: nat, domain: string)
    requires i < |ops|
  {
    var before := Run(s, ops[..i]);
    && ops[i].Approve?
    && ops[i].id in before.gate.pending
    && before.gate.pending[ops[i].id].status == Pending
    && before.gate.pending[ops[i].id].payload.domain == Some(domain)
  }

  lemma StepKnows(s: Site, op: Op, agentId: string, domain: string)
    ensures agentId in Step(s, op).gate.knownAgents <==>
              agentId in s.gate.knownAgents || ApprovesAgent(s, [op], 0, agentId)
    ensures domain in Step(s, op).gate.knownDomains <==>
              domain in s.gate.knownDomains || ApprovesDomain(s, [op], 0, domain)
  {
    assert [op][..0] == [];
  }

  lemma {:induction false} KnownIffApproved(s: Site, ops: seq<Op>, agentId: string, domain: string)
    ensures agentId in Run(s, ops).gate.knownAgents <==>
              agentId in s.gate.knownAgents || exists i: nat :: i < |ops| && ApprovesAgent(s, ops, i, agentId)
    ensures domain in Run(s, ops).gate.knownDomains <==>
              domain in s.gate.knownDomains || exists i: nat :: i < |ops| && ApprovesDomain(s, ops, i, domain)
    decreases |ops|
  {
    if ops != [] {
      var n := |ops| - 1;
      var init := ops[..n];
      RunLast(s, ops);
      KnownIffApproved(s, init, agentId, domain);
      StepKnows(Run(s, init), ops[n], agentId, domain);
      assert [ops[n]][..0] == [];
      forall i: nat | i < n
        ensures ApprovesAgent(s, init, i, agentId) <==> ApprovesAgent(s, ops, i, agentId)
        ensures ApprovesDomain(s, init, i, domain) <==> ApprovesDomain(s, ops, i, domain)
      {
        assert init[..i] == ops[..i];
      }
      assert ApprovesAgent(Run(s, init), [ops[n]], 0, agentId) <==> ApprovesAgent(s, ops, n, agentId);
      assert ApprovesDomain(Run(s, init), [ops[n]], 0, domain) <==> ApprovesDomain(s, ops, n, domain);
    }
  }

  /**
   * In every run the first action of an agent, and the first contact with a domain, ask for approval until a request of
   * that agent, or about that domain, has been approved, and never again afterwards.
   */
  lemma FirstTimesEndWithApproval(ops: seq<Op>, agentId: string, domain: string, p: Payload, ctx: Context)
    requires p.domain == Some(domain) && domain != ""
    ensures var g := Run(START, ops).gate;
            && (Holds(g, FirstAgentAction, agentId, p, ctx) <==>
                  !exists i: nat :: i < |ops| && ApprovesAgent(START, ops, i, agentId))
            && (Holds(g, FirstTimeDomain, agentId, p, ctx) <==>
                  !exists i: nat :: i < |ops| && ApprovesDomain(START, ops, i, domain))
  {
    KnownIffApproved(START, ops, agentId, domain);
  }
}
