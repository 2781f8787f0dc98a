/** The gate as an object with its store, and the agent entry point that waits on it. */
module ApprovalService {
  import opened Common
  import opened Approval
  import Glob

  class ApprovalStore {
    var records: map<string, Request>

    constructor ()
      ensures records == map[]
    {
      records := map[];
    }

    /** A write that fails because the store is not `up` is only logged. */
    method StoreRequest(r: Request, up: bool)
      modifies this
      ensures records == if up then old(records)[r.id := r] else old(records)
    {
      if up {
        records := records[r.id := r];
      }
    }

    /** Merges a decision into an existing record. */
    method UpdateRequest(id: string, status: Status, at: Option<real>, who: Option<string>, notes: Option<string>, up: bool)
      modifies this
      ensures records == if up && id in old(records) then
                           old(records)[id := old(records)[id].(status := status, decidedAt := at, decidedBy := who, notes := notes)]
                         else
                           old(records)
    {
      if up && id in records {
        records := records[id := Decided(records[id], status, at, who, notes)];
      }
    }
  }

  class ApprovalGate {
    var pending: map<string, Request>
    var completed: map<string, Request>
    var knownAgents: set<string>
    var knownDomains: set<string>
    var rules: seq<Rule>
    const store: ApprovalStore

    constructor (store: ApprovalStore, rules: seq<Rule>)
      ensures this.store == store && this.rules == rules
      ensures View() == Gate(map[], map[], {}, {})
    {
      this.store := store;
      this.rules := rules;
      pending, completed, knownAgents, knownDomains := map[], map[], {}, {};
    }

    function View(): Gate
      reads this
    {
      Gate(pending, completed, knownAgents, knownDomains)
    }

    /** Files a new request and saves it if the store is `up`, as it is with decisions. */
    method CreateRequest(id: string, agentId: string, action: string, payload: Payload, rule: Rule, now: real, up: bool)
      returns (r: Request)
      modifies `pending, store
      ensures pending == old(pending)[id := r]
      ensures r == Request(id, agentId, action, payload, Some(now + rule.timeoutSeconds), Pending, None, None, None)
      ensures store.records == if up then old(store.records)[id := r] else old(store.records)
    {
      r := Request(id, agentId, action, payload, Some(now + rule.timeoutSeconds), Pending, None, None, None);
      pending := pending[id := r];
      store.StoreRequest(r, up);
    }

    /** Writes fields of a request wherever it is filed. */
    method Put(id: string, r: Request)
      requires Knows(View(), id)
      modifies `pending, `completed
      ensures View() == Assign(old(View()), id, r)
    {
      if id in pending {
        pending := pending[id := r];
      } else {
        completed := completed[id := r];
      }
    }

    method Complete(id: string)
      modifies `pending, `completed
      ensures View() == MoveToCompleted(old(View()), id)
    {
      if id in pending {
        completed := completed[id := pending[id]];
        pending := pending - {id};
      }
    }

    method Approve(id: string, who: string, notes: Option<string>, now: real, up: bool) returns (ok: bool)
      modifies `pending, `completed, `knownAgents, `knownDomains, store
      ensures ok <==> id in old(pending) && old(pending)[id].status == Pending
      ensures ok ==>
        && pending == old(pending) - {id}
        && completed == old(completed)[id := old(pending)[id].(status := Approved, decidedAt := Some(now),
                                                               decidedBy := Some(who), notes := notes)]
        && knownAgents == old(knownAgents) + {old(pending)[id].agentId}
        && (forall d :: d in knownDomains <==> d in old(knownDomains) || old(pending)[id].payload.domain == Some(d))
      ensures View() == if ok then Decide(old(View()), id, Approved, who, notes, now) else old(View())
      ensures store.records == if ok && up && id in old(store.records) then
                                 old(store.records)[id := old(store.records)[id].(
                                   status := Approved, decidedAt := Some(now), decidedBy := Some(who), notes := notes)]
                               else
                                 old(store.records)
    {
      if id !in pending || pending[id].status != Pending {
        return false;
      }
      var request := pending[id];
      Put(id, Decided(request, Approved, Some(now), Some(who), notes));
      if request.payload.domain.Some? {
        knownDomains := knownDomains + {request.payload.domain.value};
      }
      knownAgents := knownAgents + {request.agentId};
      Complete(id);
      store.UpdateRequest(id, Approved, Some(now), Some(who), notes, up);
      ok := true;
    }

    method Reject(id: string, who: string, notes: Option<string>, now: real, up: bool) returns (ok: bool)
      modifies `pending, `completed, store
      ensures ok <==> id in old(pending) && old(pending)[id].status == Pending
      ensures ok ==>
        && pending == old(pending) - {id}
        && completed == old(completed)[id := old(pending)[id].(status := Rejected, decidedAt := Some(now),
                                                               decidedBy := Some(who), notes := notes)]
      ensures View() == if ok then Decide(old(View()), id, Rejected, who, notes, now) else old(View())
      ensures store.records == if ok && up && id in old(store.records) then
                                 old(store.records)[id := old(store.records)[id].(
                                   status := Rejected, decidedAt := Some(now), decidedBy := Some(who), notes := notes)]
                               else
                                 old(store.records)
    {
      if id !in pending || pending[id].status != Pending {
        return false;
      }
      Put(id, Decided(pending[id], Rejected, Some(now), Some(who), notes));
      Complete(id);
      store.UpdateRequest(id, Rejected, Some(now), Some(who), notes, up);
      ok := true;
    }

    /** The request stays filed as pending but can no longer be decided here; the store is not told. */
    method RequestMoreInfo(id: string, questions: string) returns (ok: bool)
      modifies `pending, `completed
      ensures ok <==> id in old(pending) && old(pending)[id].status == Pending
      ensures completed == old(completed)
      ensures pending == if ok then old(pending)[id := old(pending)[id].(status := MoreInfo,
                                                                         notes := Some("Questions: " + questions))]
                         else old(pending)
      ensures View() == if ok then AskMore(old(View()), id, questions) else old(View())
    {
      if id !in pending || pending[id].status != Pending {
        return false;
      }
      Put(id, pending[id].(status := MoreInfo, notes := Some("Questions: " + questions)));
      ok := true;
    }

    /** Other threads of this worker, while the waiter sleeps. */
    method Sleep(calls: seq<Call>, now: real)
      modifies this, store
      ensures View() == AfterCalls(old(View()), calls, now)
      ensures rules == old(rules)
    {
      for i := 0 to |calls|
        invariant View() == AfterCalls(old(View()), calls[..i], now)
        invariant rules == old(rules)
      {
        assert calls[..i + 1][..i] == calls[..i];
        var ok;
        var up: bool := *;
        match calls[i]
        case CallApprove(id, who, notes) => ok := Approve(id, who, notes, now, up);
        case CallReject(id, who, notes) => ok := Reject(id, who, notes, now, up);
        case CallMoreInfo(id, questions) => ok := RequestMoreInfo(id, questions);
      }
      assert calls[..|calls|] == calls;
    }

    /**
     * Polls until a decision shows or the time is up. `start` and `wall` are the monotonic and the wall clock on entry.
     * The time is up when the monotonic clock reaches `start` plus the caller's timeout, or else plus what is left until
     * the request expires. With neither, `last` is a poll that shows a decision. An unknown id is an error, None.
     */
    method WaitForDecision(id: string, timeout: Option<real>, start: real, wall: real, world: World, ghost last: nat)
      returns (outcome: Option<Request>, polls: nat)
      requires Sleeps(world, start)
      requires id in pending && timeout.None? && pending[id].expiresAt.None? ==> DecisionVisible(View(), world, id, last)
      modifies this, store
      ensures rules == old(rules)
      ensures id !in old(pending) ==> outcome.None? && polls == 0 && View() == old(View())
      ensures id in old(pending) ==>
        && 1 <= polls
        && View() == AfterWait(old(View()), world, id, polls - 1)
        && Knows(View(), id)
        && outcome == Some(Lookup(View(), id))
      ensures id in old(pending) && timeout.Some? ==>
        EndsAfter(old(View()), world, id, Some(start + timeout.value), polls)
      ensures id in old(pending) && timeout.None? && old(pending)[id].expiresAt.Some? ==>
        var left := old(pending)[id].expiresAt.value - wall;
        if left <= 0.0 then polls == 1 else EndsAfter(old(View()), world, id, Some(start + left), polls)
      ensures id in old(pending) && timeout.None? && old(pending)[id].expiresAt.None? ==>
        FirstDecision(old(View()), world, id, polls - 1) && polls <= last + 1
    {
      if id !in pending {
        return None, 0;
      }
      ghost var g := View();
      var limit := timeout;
      if timeout.None? && pending[id].expiresAt.Some? {
        var left := pending[id].expiresAt.value - wall;
        limit := Some(if left < 0.0 then 0.0 else left);
      }
      ghost var end := last;
      if limit.Some? {
        end := TimedWaitEnds(g, world, id, start, limit.value);
      }
      var deadline := if limit.Some? then Some(start + limit.value) else None;
      polls := PollUntil(id, deadline, world, end);
      EndsOfWaits(g, world, id, start, deadline, polls - 1);
      outcome := Some(if id in pending then pending[id] else completed[id]);
    }

    /** The polling loop; `end` is some poll that ends it. */
    method PollUntil(id: string, deadline: Option<real>, world: World, ghost end: nat) returns (polls: nat)
      requires Knows(View(), id) && Ends(View(), world, id, deadline, end)
      modifies this, store
      ensures rules == old(rules)
      ensures EndsAfter(old(View()), world, id, deadline, polls) && polls <= end + 1
      ensures View() == AfterWait(old(View()), world, id, polls - 1)
      ensures Knows(View(), id)
    {
      ghost var g := View();
      var i: nat := 0;
      while true
        invariant i <= end
        invariant View() == GateAt(g, world, i) && rules == old(rules)
        invariant Open(g, world, id, deadline, i)
        decreases end - i
      {
        PollEndsWait(g, world, id, deadline, i);
        var late := deadline.Some? && world(i).clock >= deadline.value;
        var over := TakePoll(id, world(i).reply, late, world(i).now);
        if over {
          break;
        }
        Sleep(world(i).calls, world(i).now);
        i := i + 1;
      }
      polls := i + 1;
    }

    /** One poll: adopts a decision from the store, or finds one on the gate, or expires the request if it is `late`. */
    method TakePoll(id: string, reply: Reply, late: bool, now: real) returns (over: bool)
      requires Knows(View(), id)
      modifies `pending, `completed
      ensures var polled := Poll(old(View()), id, Answer(reply), late, now);
              && over == polled.Some?
              && View() == (if over then polled.value else old(View()))
      ensures Knows(View(), id)
    {
      if reply.Found? && reply.record.status != Pending {
        var latest := reply.record;
        var stored := if id in pending then pending[id] else completed[id];
        Put(id, Decided(stored, latest.status, latest.decidedAt, latest.decidedBy, latest.notes));
        return true;
      }
      var request := if id in pending then pending[id] else completed[id];
      if request.status == Pending && late {
        Put(id, request.(status := Expired, decidedAt := Some(now), notes := Some(EXPIRY_NOTE)));
        Complete(id);
      }
      over := request.status != Pending || late;
    }

    method EvaluateCondition(c: Condition, agentId: string, p: Payload, ctx: Context) returns (met: bool)
      ensures met <==> Holds(View(), c, agentId, p, ctx)
    {
      match c
      case FirstTimeDomain =>
        var domain := if p.domain.Some? && p.domain.value != "" then p.domain else ctx.domain;
        met := domain.Some? && domain.value != "" && domain.value !in knownDomains;
      case FirstAgentAction => met := agentId !in knownAgents;
      case AnomalyFlagged => met := ctx.anomalyFlagged;
      case ValueAbove(threshold) =>
        var value := if p.value.Some? && p.value.value != 0.0 then p.value.value
                     else if p.amount.Some? && p.amount.value != 0.0 then p.amount.value
                     else 0.0;
        met := value > threshold;
      case FirstDidRegistration => met := p.did.Some? && p.did.value != "";
      case ScopeExpansion =>
        var added := p.newScopes - p.oldScopes;
        met := added != {};
        assert forall s :: s in p.newScopes && s !in p.oldScopes ==> s in added;
        ghost var extra :| met ==> extra in added;
      case Unknown => met := false;
    }

    /** The first enabled rule that matches the agent, the action and one of its conditions. */
    method CheckRequiresApproval(agentId: string, action: string, p: Payload, ctx: Context) returns (rule: Option<Rule>)
      ensures rule.None? <==> forall r :: r in rules ==> !RuleMatches(View(), r, agentId, action, p, ctx)
      ensures rule.Some? ==>
        exists i :: (&& 0 <= i < |rules|
                     && rules[i] == rule.value
                     && RuleMatches(View(), rules[i], agentId, action, p, ctx)
                     && forall j :: 0 <= j < i ==> !RuleMatches(View(), rules[j], agentId, action, p, ctx))
    {
      for i := 0 to |rules|
        invariant forall j :: 0 <= j < i ==> !RuleMatches(View(), rules[j], agentId, action, p, ctx)
      {
        var candidate := rules[i];
        Glob.SplitMatchesIsMatches(candidate.agentPattern, agentId);
        Glob.SplitMatchesIsMatches(candidate.actionPattern, action);
        if !candidate.enabled {
          continue;
        }
        if !Glob.SplitMatches(candidate.agentPattern, agentId) {
          continue;
        }
        if !Glob.SplitMatches(candidate.actionPattern, action) {
          continue;
        }
        if candidate.conditions != [] {
          var met := AnyCondition(candidate.conditions, agentId, p, ctx);
          if !met {
            continue;
          }
        }
        assert RuleMatches(View(), rules[i], agentId, action, p, ctx);
        return Some(candidate);
      }
      rule := None;
    }

    method AnyCondition(conditions: seq<Condition>, agentId: string, p: Payload, ctx: Context) returns (met: bool)
      ensures met <==> exists c :: c in conditions && Holds(View(), c, agentId, p, ctx)
    {
      met := false;
      for i := 0 to |conditions|
        invariant !met && forall j :: 0 <= j < i ==> !Holds(View(), conditions[j], agentId, p, ctx)
      {
        met := EvaluateCondition(conditions[i], agentId, p, ctx);
        if met {
          return;
        }
      }
    }
  }

  const NO_CONTEXT := Context(None, false)

  /** Some rule asks for approval of this action. */
  ghost predicate Gated(g: Gate, rules: seq<Rule>, agentId: string, action: string, p: Payload) {
    exists r :: r in rules && RuleMatches(g, r, agentId, action, p, NO_CONTEXT)
  }

  /** `r` is the first of the rules that asks for approval of this action. */
  ghost predicate FirstMatch(g: Gate, rules: seq<Rule>, r: Rule, agentId: string, action: string, p: Payload) {
    exists k :: (&& 0 <= k < |rules|
                 && rules[k] == r
                 && RuleMatches(g, rules[k], agentId, action, p, NO_CONTEXT)
                 && forall j :: 0 <= j < k ==> !RuleMatches(g, rules[j], agentId, action, p, NO_CONTEXT))
  }

  /**
   * The wait on a request filed at `filedAt` under a rule with timeout `t`: it ends with the first poll that shows a
   * decision or whose clock has reached the time left at `wall`, and with the first poll if none is left.
   */
  ghost predicate WaitsFor(g: Gate, world: World, id: string, start: real, t: real, filedAt: real, wall: real, polls: nat)
    requires Knows(g, id)
  {
    var left := t - (wall - filedAt);
    if left <= 0.0 then polls == 1 else EndsAfter(g, world, id, Some(start + left), polls)
  }

  /** The request is filed as pending and waited for; the wait leaves the gate as `after` and the request as `decided`. */
  ghost predicate Awaited(before: Gate, rule: Rule, agentId: string, action: string, p: Payload, id: string, filedAt: real,
                          start: real, wall: real, world: World, polls: nat, after: Gate, decided: Request) {
    var filed := Request(id, agentId, action, p, Some(filedAt + rule.timeoutSeconds), Pending, None, None, None);
    var g := before.(pending := before.pending[id := filed]);
    && Knows(g, id)
    && 1 <= polls
    && WaitsFor(g, world, id, start, rule.timeoutSeconds, filedAt, wall, polls)
    && after == AfterWait(g, world, id, polls - 1)
    && Knows(after, id)
    && decided == Lookup(after, id)
  }

  /** Files a request under the rule that asks for it and waits for the decision. */
  method FileAndWait(gate: ApprovalGate, rule: Rule, agentId: string, action: string, p: Payload, id: string, filedAt: real,
                     start: real, wall: real, world: World, up: bool) returns (decided: Request, polls: nat)
    requires Sleeps(world, start)
    modifies gate, gate.store
    ensures Awaited(old(gate.View()), rule, agentId, action, p, id, filedAt, start, wall, world, polls, gate.View(), decided)
  {
    var filed := gate.CreateRequest(id, agentId, action, p, rule, filedAt, up);
    var outcome;
    outcome, polls := gate.WaitForDecision(id, None, start, wall, world, 0);
    decided := outcome.value;
  }

  /**
   * The control flow of an agent request: an action on the agent's sensitive list that a rule matches is filed and
   * waited for, and executed only if the wait comes back approved; anything else is executed at once. A request with a
   * signed message that does not verify, `forged`, is refused before all that. `id` is the freshly drawn request id;
   * `filedAt` is the wall clock when the request is filed, `wall` and `start` the clocks when the wait begins, and `up`
   * tells whether the store can be written when the request is filed.
   */
  method HandleRequest(gate: ApprovalGate, forged: bool, sensitive: set<string>, agentId: string, action: string, p: Payload,
                       id: string, filedAt: real, start: real, wall: real, world: World, up: bool)
    returns (executed: bool, outcome: Option<Request>, polls: nat)
    requires Sleeps(world, start)
    modifies gate, gate.store
    ensures outcome.Some? <==>
              !forged && action in sensitive && Gated(old(gate.View()), old(gate.rules), agentId, action, p)
    ensures executed <==> !forged && (outcome.None? || outcome.value.status == Approved)
    ensures outcome.None? ==> gate.View() == old(gate.View()) && polls == 0
    ensures outcome.Some? ==>
      exists rule: Rule ::
        && FirstMatch(old(gate.View()), old(gate.rules), rule, agentId, action, p)
        && Awaited(old(gate.View()), rule, agentId, action, p, id, filedAt, start, wall, world, polls, gate.View(), outcome.value)
  {
    outcome, polls := None, 0;
    if forged {
      return false, outcome, polls;
    }
    if action in sensitive {
      var rule := gate.CheckRequiresApproval(agentId, action, p, NO_CONTEXT);
      if rule.Some? {
        assert FirstMatch(gate.View(), gate.rules, rule.value, agentId, action, p);
        var decided;
        decided, polls := FileAndWait(gate, rule.value, agentId, action, p, id, filedAt, start, wall, world, up);
        outcome := Some(decided);
        if decided.status != Approved {
          return false, outcome, polls;
        }
      }
    }
    executed := true;
  }
}
