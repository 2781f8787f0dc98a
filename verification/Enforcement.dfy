/** The per-worker capability enforcer and the store workers share (core/capabilities.py: `CapabilityEnforcer`). */
module Enforcement {
  import opened Common
  import opened Capabilities

  /** The agents a worker knows after start-up: every stored record that parses. */
  function Loaded(records: map<string, seq<string>>): map<string, CapabilitySet> {
    map id | id in records && FromStrings(records[id]).Some? :: FromStrings(records[id]).value
  }

  /** `check_permission`: an unknown agent may do nothing. */
  predicate Decision(agents: map<string, CapabilitySet>, id: string, r: Resource, a: Action, target: string) {
    id in agents && Permits(agents[id], r, a, target)
  }

  class SecurityStore {
    var records: map<string, seq<string>>

    constructor ()
      ensures records == map[]
    {
      records := map[];
    }

    /** Writes one record if the store is `up`. */
    method StoreRecord(id: string, capabilities: seq<string>, up: bool)
      modifies this
      ensures records == if up then old(records)[id := capabilities] else old(records)
    {
      if up {
        records := records[id := capabilities];
      }
    }
  }

  class CapabilityEnforcer {
    var agents: map<string, CapabilitySet>
    const store: SecurityStore

    /** A new worker; it starts empty when the store cannot be read. */
    constructor (store: SecurityStore, up: bool)
      ensures this.store == store
      ensures agents == if up then Loaded(store.records) else map[]
    {
      this.store := store;
      agents := map[];
      new;
      if up {
        LoadFromStore();
      }
    }

    /** Parses every record, leaving out those that fail. */
    method LoadFromStore()
      requires agents == map[]
      modifies `agents
      ensures agents == Loaded(store.records)
    {
      var records := store.records;
      var left := records.Keys;
      while left != {}
        invariant left <= records.Keys
        invariant agents == map id | id in records && id !in left && FromStrings(records[id]).Some? ::
                              FromStrings(records[id]).value
        decreases left
      {
        var id :| id in left;
        var parsed := FromStrings(records[id]);
        if parsed.Some? {
          agents := agents[id := parsed.value];
        }
        left := left - {id};
      }
    }

    /** Registers an agent and writes its rules through to the store; a list that does not parse changes nothing. */
    method RegisterAgent(id: string, capabilities: seq<string>, up: bool) returns (registered: bool)
      modifies `agents, store
      ensures registered <==>
                forall s :: s in capabilities ==> Readable(if s != "" && s[0] == '!' then s[1..] else s)
      ensures !registered ==> agents == old(agents) && store.records == old(store.records)
      ensures registered ==>
        && FromStrings(capabilities).Some?
        && agents == old(agents)[id := FromStrings(capabilities).value]
        && store.records == (if up then old(store.records)[id := Saved(FromStrings(capabilities).value)] else old(store.records))
      ensures registered ==> forall r, a, target :: Decision(agents, id, r, a, target) <==> TextsPermit(capabilities, r, a, target)
      ensures forall other, r, a, target :: other != id ==>
                (Decision(agents, other, r, a, target) <==> Decision(old(agents), other, r, a, target))
    {
      ListParsesIff(capabilities);
      var parsed := FromStrings(capabilities);
      if parsed.None? {
        return false;
      }
      agents := agents[id := parsed.value];
      store.StoreRecord(id, Saved(parsed.value), up);
      registered := true;
      forall r, a, target
        ensures Decision(agents, id, r, a, target) <==> TextsPermit(capabilities, r, a, target)
      {
        PermitsIsTexts(capabilities, r, a, target);
      }
    }

    method CheckPermission(id: string, r: Resource, a: Action, target: string) returns (permitted: bool)
      ensures permitted <==> Decision(agents, id, r, a, target)
      ensures permitted <==> id in agents && Allowed(agents[id], r, a, target)
    {
      if id !in agents {
        return false;
      }
      PermitsIsAllowed(agents[id], r, a, target);
      permitted := Permits(agents[id], r, a, target);
    }
  }

  lemma {:induction false} PrintedAllowIsSaved(allow: seq<Capability>, c: Capability)
    requires c in allow
    ensures Print(c) in PrintAllows(allow)
  {
    if c != allow[0] {
      PrintedAllowIsSaved(allow[1..], c);
    }
  }

  lemma {:induction false} PrintedDenyIsSaved(deny: seq<Capability>, c: Capability)
    requires c in deny
    ensures "!" + Print(c) in PrintDenies(deny)
  {
    if c != deny[0] {
      PrintedDenyIsSaved(deny[1..], c);
    }
  }

  /** A scope ending in ".none" makes the printed rule, and so the saved record, unreadable. */
  lemma NoneScopeSpoilsRecord(cs: CapabilitySet, c: Capability)
    requires (c in cs.allow || c in cs.deny) && EndsWith(c.scope, ".none")
    ensures FromStrings(Saved(cs)).None?
  {
    var head := ResourceName(c.resource) + "." + ActionName(c.action);
    assert Print(c) == head + ":" + c.scope;
    SuffixInScope(head, c.scope, ".none");
    assert Print(c)[|head|] == ':';
    WithoutNoneKeepsColon(Print(c));
    NoColonInNames(WithoutNone(Print(c)));
    assert Parse(Print(c)).None?;
    PrintIsNoDeny(c);
    FromStringsParses(Saved(cs));
    if c in cs.allow {
      PrintedAllowIsSaved(cs.allow, c);
      assert Print(c) in Saved(cs);
    } else {
      PrintedDenyIsSaved(cs.deny, c);
      assert "!" + Print(c) in Saved(cs);
    }
  }

  /**
   * A worker that starts after another one registered and saved an agent decides every request for it the same way,
   * exactly unless some registered string ends in ".none" and a newline; in that case it does not know the agent and
   * refuses everything.
   */
  lemma WorkersAgree(records: map<string, seq<string>>, id: string, capabilities: seq<string>)
    requires FromStrings(capabilities).Some?
    ensures var cs := FromStrings(capabilities).value;
            var reloaded := Loaded(records[id := Saved(cs)]);
            && ((forall s :: s in capabilities ==> !EndsWith(Body(s), ".none\n")) <==> id in reloaded)
            && (id in reloaded ==> reloaded[id] == cs)
            && (id in reloaded ==> forall r, a, t :: Decision(reloaded, id, r, a, t) <==> TextsPermit(capabilities, r, a, t))
            && (id !in reloaded ==> forall r, a, t :: !Decision(reloaded, id, r, a, t))
  {
    var cs := FromStrings(capabilities).value;
    RegisteredListReloads(capabilities);
    forall r, a, t
      ensures Permits(cs, r, a, t) <==> TextsPermit(capabilities, r, a, t)
    {
      PermitsIsTexts(capabilities, r, a, t);
    }
    if s :| s in capabilities && EndsWith(Body(s), ".none\n") {
      FromStringsParses(capabilities);
      var c := Parse(Body(s)).value;
      FromStringsMembers(capabilities, c);
      NewlineNoneScope(Body(s));
      NoneScopeSpoilsRecord(cs, c);
    }
  }

  lemma NewlineNoneScope(s: string)
    requires Parse(s).Some? && EndsWith(s, ".none\n")
    ensures EndsWith(Parse(s).value.scope, ".none")
  {
    AcceptedIsPrintable(s);
    NewlineSuffix(s);
    var head := ScopedShape(s);
  }
}
