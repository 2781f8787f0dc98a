/** The human approval gate of one worker (core/approval.py: `ApprovalGate`) and its caller (agents/base.py: `handle_request`). */
module Approval {
  import opened Common
  import Glob

  datatype Status = Pending | Approved | Rejected | Expired | Cancelled | MoreInfo

  /** The payload keys the rules look at. */
  datatype Payload = Payload(
    domain: Option<string>,
    value: Option<real>,
    amount: Option<real>,
    did: Option<string>,
    newScopes: set<string>,
    oldScopes: set<string>
  )

  /** Times are seconds since some epoch. */
  datatype Request = Request(
    id: string,
    agentId: string,
    action: string,
    payload: Payload,
    expiresAt: Option<real>,
    status: Status,
    decidedAt: Option<real>,
    decidedBy: Option<string>,
    notes: Option<string>
  )

  datatype Condition =
    | FirstTimeDomain
    | FirstAgentAction
    | AnomalyFlagged
    | ValueAbove(threshold: real)
    | FirstDidRegistration
    | ScopeExpansion
    | Unknown

  datatype Rule = Rule(
    agentPattern: string,
    actionPattern: string,
    conditions: seq<Condition>,
    timeoutSeconds: real,
    enabled: bool
  )

  /** The context a caller may add to a check. */
  datatype Context = Context(domain: Option<string>, anomalyFlagged: bool)

  /** What the gate of one worker remembers. */
  datatype Gate = Gate(
    pending: map<string, Request>,
    completed: map<string, Request>,
    knownAgents: set<string>,
    knownDomains: set<string>
  )

  // ---------------------------------------------------------------------------------------------
  // Operations on the gate's state
  // ---------------------------------------------------------------------------------------------

  predicate Knows(g: Gate, id: string) {
    id in g.pending || id in g.completed
  }

  /** The request object itself, wherever it is filed. */
  function Lookup(g: Gate, id: string): Request
    requires Knows(g, id)
  {
    if id in g.pending then g.pending[id] else g.completed[id]
  }

  /** An assignment to fields of the request object, which stays filed where it is. */
  function Assign(g: Gate, id: string, r: Request): Gate
    requires Knows(g, id)
  {
    if id in g.pending then g.(pending := g.pending[id := r]) else g.(completed := g.completed[id := r])
  }

  function MoveToCompleted(g: Gate, id: string): Gate {
    if id in g.pending then
      g.(pending := g.pending - {id}, completed := g.completed[id := g.pending[id]])
    else
      g
  }

  predicate Decidable(g: Gate, id: string) {
    id in g.pending && g.pending[id].status == Pending
  }

  function Decided(r: Request, status: Status, at: Option<real>, who: Option<string>, notes: Option<string>): Request {
    r.(status := status, decidedAt := at, decidedBy := who, notes := notes)
  }

  /** A successful approve or reject. */
  function Decide(g: Gate, id: string, status: Status, who: string, notes: Option<string>, now: real): Gate
    requires Decidable(g, id)
  {
    var r := g.pending[id];
    var known := if status != Approved then g else
      g.(knownAgents := g.knownAgents + {r.agentId},
         knownDomains := g.knownDomains + if r.payload.domain.Some? then {r.payload.domain.value} else {});
    MoveToCompleted(Assign(known, id, Decided(r, status, Some(now), Some(who), notes)), id)
  }

  function AskMore(g: Gate, id: string, questions: string): Gate
    requires Decidable(g, id)
  {
    Assign(g, id, g.pending[id].(status := MoreInfo, notes := Some("Questions: " + questions)))
  }

  function File(g: Gate, r: Request): Gate {
    g.(pending := g.pending[r.id := r])
  }

  const EXPIRY_NOTE := "Request expired without decision"

  /** What the waiter does on a timeout without a decision. */
  function Expire(g: Gate, id: string, now: real): Gate
    requires Knows(g, id)
  {
    var r := Lookup(g, id);
    MoveToCompleted(Assign(g, id, r.(status := Expired, decidedAt := Some(now), notes := Some(EXPIRY_NOTE))), id)
  }

  /** What the waiter does with a decision read from the store: the request stays where it is filed. */
  function Adopt(g: Gate, id: string, stored: Request): Gate
    requires Knows(g, id)
  {
    Assign(g, id, Decided(Lookup(g, id), stored.status, stored.decidedAt, stored.decidedBy, stored.notes))
  }

  /** A call another thread of the same worker makes. */
  datatype Call =
    | CallApprove(id: string, who: string, notes: Option<string>)
    | CallReject(id: string, who: string, notes: Option<string>)
    | CallMoreInfo(id: string, questions: string)

  function AfterCall(g: Gate, c: Call, now: real): Gate {
    if !Decidable(g, c.id) then g
    else match c
      case CallApprove(id, who, notes) => Decide(g, id, Approved, who, notes, now)
      case CallReject(id, who, notes) => Decide(g, id, Rejected, who, notes, now)
      case CallMoreInfo(id, questions) => AskMore(g, id, questions)
  }

  function AfterCalls(g: Gate, calls: seq<Call>, now: real): Gate {
    if calls == [] then g else AfterCall(AfterCalls(g, calls[..|calls| - 1], now), calls[|calls| - 1], now)
  }

  lemma {:induction false} CallsKeepKnown(g: Gate, calls: seq<Call>, now: real, id: string)
    requires Knows(g, id)
    ensures Knows(AfterCalls(g, calls, now), id)
  {
    if calls != [] {
      CallsKeepKnown(g, calls[..|calls| - 1], now, id);
    }
  }

  /** A call on another request, or on one that is already decided, leaves this request alone. */
  lemma {:induction false} CallsKeepDecided(g: Gate, calls: seq<Call>, now: real, id: string)
    requires Knows(g, id) && Lookup(g, id).status != Pending
    ensures Knows(AfterCalls(g, calls, now), id) && Lookup(AfterCalls(g, calls, now), id) == Lookup(g, id)
  {
    if calls != [] {
      CallsKeepDecided(g, calls[..|calls| - 1], now, id);
    }
  }

  lemma {:induction false} CallsSplit(g: Gate, a: seq<Call>, b: seq<Call>, now: real)
    ensures AfterCalls(g, a + b, now) == AfterCalls(AfterCalls(g, a, now), b, now)
  {
    if b == [] {
      assert a + b == a;
    } else {
      assert (a + b)[..|a + b| - 1] == a + b[..|b| - 1];
      CallsSplit(g, a, b[..|b| - 1], now);
    }
  }

  /** The first call that decides a pending request settles it, whatever is called after it. */
  lemma CallDecides(g: Gate, calls: seq<Call>, now: real, k: nat)
    requires k < |calls| && !calls[k].CallMoreInfo?
    requires Decidable(AfterCalls(g, calls[..k], now), calls[k].id)
    ensures var id, g' := calls[k].id, AfterCalls(g, calls, now);
            var status := if calls[k].CallApprove? then Approved else Rejected;
            && Knows(g', id)
            && Lookup(g', id) == AfterCalls(g, calls[..k], now).pending[id].(
                 status := status, decidedAt := Some(now), decidedBy := Some(calls[k].who), notes := calls[k].notes)
  {
    var id, before := calls[k].id, AfterCalls(g, calls[..k], now);
    assert calls == calls[..k + 1] + calls[k + 1..];
    CallsSplit(g, calls[..k + 1], calls[k + 1..], now);
    assert calls[..k + 1][..k] == calls[..k];
    var decided := AfterCalls(g, calls[..k + 1], now);
    assert decided == AfterCall(before, calls[k], now);
    CallsKeepDecided(decided, calls[k + 1..], now, id);
  }

  // ---------------------------------------------------------------------------------------------
  // Waiting
  // ---------------------------------------------------------------------------------------------

  /** What one poll of the store for the request brings; a Redis error may also look like a missing record. */
  datatype Reply = PollError | Missing | Found(record: Request)

  /**
   * The world around poll number `i`: the store's answer, the monotonic clock read after it, the wall clock, and the
   * calls other threads make while the waiter sleeps afterwards.
   */
  datatype Moment = Moment(reply: Reply, clock: real, now: real, calls: seq<Call>)

  type World = nat -> Moment

  const POLL_INTERVAL := 1.0

  /** A sleep lasts at least the poll interval. */
  ghost predicate Sleeps(world: World, start: real) {
    && start <= world(0).clock
    && forall i: nat :: world(i).clock + POLL_INTERVAL <= world(i + 1).clock
  }

  /** The gate just before poll `i`. */
  ghost function GateAt(g: Gate, world: World, i: nat): Gate {
    if i == 0 then g else AfterCalls(GateAt(g, world, i - 1), world(i - 1).calls, world(i - 1).now)
  }

  predicate StoreDecides(m: Moment) {
    m.reply.Found? && m.reply.record.status != Pending
  }

  ghost predicate DecisionVisible(g: Gate, world: World, id: string, i: nat)
    requires Knows(g, id)
  {
    WorldKeepsKnown(g, world, id, i);
    StoreDecides(world(i)) || Lookup(GateAt(g, world, i), id).status != Pending
  }

  /** The wait ends with poll `i` at the latest. */
  ghost predicate Ends(g: Gate, world: World, id: string, deadline: Option<real>, i: nat)
    requires Knows(g, id)
  {
    DecisionVisible(g, world, id, i) || (deadline.Some? && deadline.value <= world(i).clock)
  }

  /** No poll before number `n` ends the wait. */
  ghost predicate Open(g: Gate, world: World, id: string, deadline: Option<real>, n: nat)
    requires Knows(g, id)
  {
    forall i: nat :: i < n ==> !Ends(g, world, id, deadline, i)
  }

  /** Poll `n` is the first one that shows a decision. */
  ghost predicate FirstDecision(g: Gate, world: World, id: string, n: nat)
    requires Knows(g, id)
  {
    DecisionVisible(g, world, id, n) && forall i: nat :: i < n ==> !DecisionVisible(g, world, id, i)
  }

  /** The wait ends with its poll number `polls`, counted from 1. */
  ghost predicate EndsAfter(g: Gate, world: World, id: string, deadline: Option<real>, polls: nat)
    requires Knows(g, id)
  {
    && 1 <= polls
    && Ends(g, world, id, deadline, polls - 1)
    && Open(g, world, id, deadline, polls - 1)
  }

  /** Without a deadline only a decision ends the wait; with one that has passed on entry the first poll does. */
  lemma EndsOfWaits(g: Gate, world: World, id: string, start: real, deadline: Option<real>, n: nat)
    requires Knows(g, id) && Sleeps(world, start)
    requires Ends(g, world, id, deadline, n) && Open(g, world, id, deadline, n)
    ensures deadline.None? ==> FirstDecision(g, world, id, n)
    ensures deadline.Some? && deadline.value <= start ==> n == 0
  {
    forall i: nat | i < n
      ensures !DecisionVisible(g, world, id, i)
    {
      assert !Ends(g, world, id, deadline, i);
    }
    assert 0 < n ==> !Ends(g, world, id, deadline, 0);
  }

  lemma {:induction false} WorldKeepsKnown(g: Gate, world: World, id: string, i: nat)
    requires Knows(g, id)
    ensures Knows(GateAt(g, world, i), id)
  {
    if i > 0 {
      WorldKeepsKnown(g, world, id, i - 1);
      CallsKeepKnown(GateAt(g, world, i - 1), world(i - 1).calls, world(i - 1).now, id);
    }
  }

  lemma {:induction false} ClockAdvances(world: World, start: real, i: nat)
    requires Sleeps(world, start)
    ensures start + i as real <= world(i).clock
  {
    if i > 0 {
      ClockAdvances(world, start, i - 1);
    }
  }

  /** With a timeout of `t` seconds fewer than `t + 1` polls leave the wait open; none does if `t` is 0 or less. */
  lemma OpenPollsBounded(g: Gate, world: World, id: string, start: real, t: real, n: nat)
    requires Knows(g, id) && Sleeps(world, start) && Open(g, world, id, Some(start + t), n) && 0 < n
    ensures n as real < t + 1.0
  {
    assert !Ends(g, world, id, Some(start + t), n - 1);
    ClockAdvances(world, start, n - 1);
  }

  /** So a wait with a timeout always ends. */
  lemma TimedWaitEnds(g: Gate, world: World, id: string, start: real, t: real) returns (last: nat)
    requires Knows(g, id) && Sleeps(world, start)
    ensures Ends(g, world, id, Some(start + t), last)
  {
    last := if t < 0.0 then 0 else t.Floor + 1;
    ClockAdvances(world, start, last);
  }

  /**
   * One poll by a waiter: `stored` is what the store answered, if anything, and `late` whether the deadline has passed.
   * None means that the wait goes on.
   */
  function Poll(g: Gate, id: string, stored: Option<Request>, late: bool, now: real): Option<Gate>
    requires Knows(g, id)
  {
    if stored.Some? && stored.value.status != Pending then Some(Adopt(g, id, stored.value))
    else if Lookup(g, id).status != Pending then Some(g)
    else if late then Some(Expire(g, id, now))
    else None
  }

  function Answer(reply: Reply): Option<Request> {
    if reply.Found? then Some(reply.record) else None
  }

  /** How a wait that ends with poll `n` leaves the gate. */
  ghost function AfterWait(g: Gate, world: World, id: string, n: nat): Gate
    requires Knows(g, id)
  {
    WorldKeepsKnown(g, world, id, n);
    Poll(GateAt(g, world, n), id, Answer(world(n).reply), true, world(n).now).value
  }

  /** A poll ends the wait exactly when one of its two reasons is there, and then leaves the gate as `AfterWait` says. */
  lemma PollEndsWait(g: Gate, world: World, id: string, deadline: Option<real>, n: nat)
    requires Knows(g, id)
    ensures Knows(GateAt(g, world, n), id)
    ensures var late := deadline.Some? && deadline.value <= world(n).clock;
            var polled := Poll(GateAt(g, world, n), id, Answer(world(n).reply), late, world(n).now);
            && (polled.Some? <==> Ends(g, world, id, deadline, n))
            && (polled.Some? ==> polled.value == AfterWait(g, world, id, n))
  {
    WorldKeepsKnown(g, world, id, n);
  }

  /**
   * A decision visible at any poll, the last one included, beats expiry: the wait itself expires the request exactly
   * when no poll showed a decision, and otherwise the outcome is the decision the last poll showed. Nothing else about
   * the request changes, and nothing about any other request or about what the gate knows.
   */
  lemma DecisionBeatsExpiry(g: Gate, world: World, id: string, deadline: Option<real>, n: nat)
    requires Knows(g, id) && Ends(g, world, id, deadline, n) && Open(g, world, id, deadline, n)
    ensures Knows(GateAt(g, world, n), id) && Knows(AfterWait(g, world, id, n), id)
    ensures var before, after := GateAt(g, world, n), AfterWait(g, world, id, n);
            var was, r := Lookup(before, id), Lookup(after, id);
            if forall i: nat :: i <= n ==> !DecisionVisible(g, world, id, i) then
              && r == was.(status := Expired, decidedAt := Some(world(n).now),
                           notes := Some("Request expired without decision"))
              && after.pending == before.pending - {id}
              && after.completed == before.completed[id := r]
              && deadline.Some? && deadline.value <= world(n).clock
            else if world(n).reply.Found? && world(n).reply.record.status != Pending then
              var stored := world(n).reply.record;
              && r == was.(status := stored.status, decidedAt := stored.decidedAt, decidedBy := stored.decidedBy,
                           notes := stored.notes)
              && after.pending == (if id in before.pending then before.pending[id := r] else before.pending)
              && after.completed == (if id in before.pending then before.completed else before.completed[id := r])
            else
              after == before && r.status != Pending
    ensures AfterWait(g, world, id, n).knownAgents == GateAt(g, world, n).knownAgents
    ensures AfterWait(g, world, id, n).knownDomains == GateAt(g, world, n).knownDomains
  {
    WorldKeepsKnown(g, world, id, n);
    forall i: nat | i < n
      ensures !DecisionVisible(g, world, id, i)
    {
      assert !Ends(g, world, id, deadline, i);
    }
    assert (forall i: nat :: i <= n ==> !DecisionVisible(g, world, id, i)) <==> !DecisionVisible(g, world, id, n);
  }

  /**
   * A call that decides the request while the waiter sleeps after poll `i` ends the wait with poll `i + 1`, and unless
   * the store shows another decision by then the waiter comes back with that one.
   */
  lemma CallEndsWait(g: Gate, world: World, id: string, deadline: Option<real>, i: nat, k: nat)
    requires Knows(g, id)
    requires var m := world(i);
             && k < |m.calls| && !m.calls[k].CallMoreInfo? && m.calls[k].id == id
             && Decidable(AfterCalls(GateAt(g, world, i), m.calls[..k], m.now), id)
    ensures Ends(g, world, id, deadline, i + 1)
    ensures Knows(AfterWait(g, world, id, i + 1), id)
    ensures !StoreDecides(world(i + 1)) ==>
              Lookup(AfterWait(g, world, id, i + 1), id).status
              == if world(i).calls[k].CallApprove? then Approved else Rejected
  {
    WorldKeepsKnown(g, world, id, i + 1);
    CallDecides(GateAt(g, world, i), world(i).calls, world(i).now, k);
  }

  // ---------------------------------------------------------------------------------------------
  // Rules
  // ---------------------------------------------------------------------------------------------

  ghost predicate Holds(g: Gate, c: Condition, agentId: string, p: Payload, ctx: Context) {
    match c
    case FirstTimeDomain =>
      var domain := if p.domain.Some? && p.domain.value != "" then p.domain else ctx.domain;
      domain.Some? && domain.value != "" && domain.value !in g.knownDomains
    case FirstAgentAction => agentId !in g.knownAgents
    case AnomalyFlagged => ctx.anomalyFlagged
    case ValueAbove(threshold) =>
      if p.value.Some? && p.value.value != 0.0 then p.value.value > threshold
      else if p.amount.Some? then p.amount.value > threshold
      else 0.0 > threshold
    case FirstDidRegistration => p.did.Some? && p.did.value != ""
    case ScopeExpansion => exists s :: s in p.newScopes && s !in p.oldScopes
    case Unknown => false
  }

  ghost predicate RuleMatches(g: Gate, rule: Rule, agentId: string, action: string, p: Payload, ctx: Context) {
    && rule.enabled
    && Glob.Matches(rule.agentPattern, agentId)
    && Glob.Matches(rule.actionPattern, action)
    && (rule.conditions == [] || exists c :: c in rule.conditions && Holds(g, c, agentId, p, ctx))
  }

  // ---------------------------------------------------------------------------------------------
  // What decisions do to the gate and to the rules
  // ---------------------------------------------------------------------------------------------

  /** The domain a check is about: the payload's, or else the context's; none if it is empty. */
  function AskedDomain(p: Payload, ctx: Context): Option<string> {
    var domain := if p.domain.Some? && p.domain.value != "" then p.domain else ctx.domain;
    if domain == Some("") then None else domain
  }

  /**
   * A decision files the request as completed, with the decision and its author. An approval adds the agent and the
   * domain of the request to the known ones, a rejection nothing.
   */
  lemma DecisionTakesEffect(g: Gate, id: string, status: Status, who: string, notes: Option<string>, now: real)
    requires Decidable(g, id)
    ensures var r := g.pending[id];
            var g' := Decide(g, id, status, who, notes, now);
            && g'.pending == g.pending - {id}
            && g'.completed == g.completed[id := r.(status := status, decidedAt := Some(now), decidedBy := Some(who),
                                                    notes := notes)]
            && (forall a :: a in g'.knownAgents <==> a in g.knownAgents || (status == Approved && a == r.agentId))
            && (forall d :: d in g'.knownDomains <==> d in g.knownDomains || (status == Approved && r.payload.domain == Some(d)))
  {
    assert g.pending[id := Decided(g.pending[id], status, Some(now), Some(who), notes)] - {id} == g.pending - {id};
  }

  /**
   * After an approval the first-time conditions no longer hold for that agent and that domain; for all others, and for all
   * other conditions, nothing changes. After a rejection nothing changes at all.
   */
  lemma ApprovalSettlesFirstTimes(g: Gate, id: string, status: Status, who: string, notes: Option<string>, now: real,
                                  c: Condition, agentId: string, p: Payload, ctx: Context)
    requires Decidable(g, id)
    ensures Holds(Decide(g, id, status, who, notes, now), c, agentId, p, ctx) <==>
              && Holds(g, c, agentId, p, ctx)
              && (c == FirstAgentAction ==> status != Approved || agentId != g.pending[id].agentId)
              && (c == FirstTimeDomain ==> status != Approved || AskedDomain(p, ctx) != g.pending[id].payload.domain)
  {
    DecisionTakesEffect(g, id, status, who, notes, now);
  }
}
