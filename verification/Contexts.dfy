/** Conversation contexts, the keys that find them and what runs of operations leave in them (agents/memory_agent.py). */
module Contexts {
  import opened Common

  // ---------------------------------------------------------------------------------------------
  // Keys
  // ---------------------------------------------------------------------------------------------

  /** The user as the key sees it: a missing or empty id is the user "system". */
  function KeyUser(userId: Option<string>): string {
    if userId.Some? && userId.value != "" then userId.value else "system"
  }

  /** The agent id, a colon and the user. */
  function ContextKey(agentId: string, userId: Option<string>): string {
    agentId + ":" + KeyUser(userId)
  }

  /** A missing id, the empty one and "system" are the same user; other ids are users of their own. */
  predicate SameUser(u: Option<string>, v: Option<string>) {
    u == v || (u in {None, Some(""), Some("system")} && v in {None, Some(""), Some("system")})
  }

  /** Within one agent, keys tell exactly the users apart. */
  lemma UserKeys(a: string, u: Option<string>, v: Option<string>)
    ensures ContextKey(a, u) == ContextKey(a, v) <==> SameUser(u, v)
  {
    SameAgentKeys(a, u, v);
  }

  /** `b` is `a`, a colon and more. */
  predicate Extends(a: string, b: string) {
    a + ":" <= b
  }

  lemma SameAgentKeys(a: string, u: Option<string>, v: Option<string>)
    ensures ContextKey(a, u) == ContextKey(a, v) <==> KeyUser(u) == KeyUser(v)
  {
    assert ContextKey(a, u)[|a| + 1..] == KeyUser(u) && ContextKey(a, v)[|a| + 1..] == KeyUser(v);
  }

  lemma ShorterIsExtended(a: string, ku: string, b: string, kv: string)
    requires a + ":" + ku == b + ":" + kv && |a| < |b|
    ensures Extends(a, b)
  {
    var x := a + ":" + ku;
    assert x[..|b|] == b && x[..|a| + 1] == a + ":";
    assert b[..|a| + 1] == x[..|a| + 1];
  }

  lemma KeysMeetOnlyByExtension(a: string, u: Option<string>, b: string, v: Option<string>)
    requires ContextKey(a, u) == ContextKey(b, v)
    ensures a == b || Extends(a, b) || Extends(b, a)
  {
    if |a| < |b| {
      ShorterIsExtended(a, KeyUser(u), b, KeyUser(v));
    } else if |b| < |a| {
      ShorterIsExtended(b, KeyUser(v), a, KeyUser(u));
    } else {
      assert ContextKey(a, u)[..|a|] == a && ContextKey(b, v)[..|b|] == b;
    }
  }

  /** Unless one agent id extends the other by a colon, keys tell agents and users apart. */
  lemma KeysAreInjective(a: string, u: Option<string>, b: string, v: Option<string>)
    requires !Extends(a, b) && !Extends(b, a)
    ensures ContextKey(a, u) == ContextKey(b, v) <==> a == b && SameUser(u, v)
  {
    if ContextKey(a, u) == ContextKey(b, v) {
      KeysMeetOnlyByExtension(a, u, b, v);
    }
    UserKeys(a, u, v);
  }

  /** An agent and the user "rest:v" share the key of the agent that extends it by "rest" and the user `v`. */
  lemma KeysCanClash(a: string, rest: string, v: string)
    requires v != ""
    ensures ContextKey(a, Some(rest + ":" + v)) == ContextKey(a + ":" + rest, Some(v))
    ensures ContextKey(a, Some(rest + ":system")) == ContextKey(a + ":" + rest, None)
  {
    assert a + ":" + (rest + ":" + v) == a + ":" + rest + ":" + v;
    assert rest + ":system" == rest + ":" + "system";
    assert a + ":" + (rest + ":" + "system") == a + ":" + rest + ":" + "system";
  }

  /** Two different agents can meet in one context exactly if one id extends the other by a colon. */
  lemma AgentsClashIff(a: string, b: string)
    requires a != b
    ensures (exists u, v :: ContextKey(a, u) == ContextKey(b, v)) <==> Extends(a, b) || Extends(b, a)
  {
    if u, v :| ContextKey(a, u) == ContextKey(b, v) {
      KeysMeetOnlyByExtension(a, u, b, v);
    }
    if Extends(a, b) {
      ExtensionClashes(a, b);
    }
    if Extends(b, a) {
      ExtensionClashes(b, a);
    }
  }

  lemma ExtensionClashes(a: string, b: string)
    requires Extends(a, b)
    ensures exists u, v :: ContextKey(a, u) == ContextKey(b, v)
    ensures exists u, v :: ContextKey(b, u) == ContextKey(a, v)
  {
    var rest := b[|a| + 1..];
    assert b == a + ":" + rest;
    KeysCanClash(a, rest, "system");
    var u: Option<string> := Some(rest + ":system");
    assert ContextKey(a, u) == ContextKey(b, None);
    assert ContextKey(b, None) == ContextKey(a, u);
  }

  // ---------------------------------------------------------------------------------------------
  // One context
  // ---------------------------------------------------------------------------------------------

  datatype Message = Message(role: string, content: string)

  const DEFAULT_MAX_MESSAGES: nat := 20

  /** The contents of a context: its id, its key, its limit, its messages and everything added since creation. */
  datatype Slot = Slot(id: string, key: string, limit: nat, messages: seq<Message>, added: seq<Message>)

  class ConversationContext {
    const contextId: string
    const agentId: string
    const userId: Option<string>
    const maxMessages: nat
    var messages: seq<Message>
    /** Everything added since creation. */
    ghost var added: seq<Message>

    constructor (contextId: string, agentId: string, userId: Option<string>, maxMessages: nat)
      ensures Valid() && added == []
      ensures this.contextId == contextId && this.agentId == agentId && this.userId == userId
      ensures this.maxMessages == maxMessages
    {
      this.contextId, this.agentId, this.userId, this.maxMessages := contextId, agentId, userId, maxMessages;
      messages, added := [], [];
    }

    /** The context holds the last `maxMessages` of everything added, or all of it for the limit 0. */
    ghost predicate Valid()
      reads this
    {
      messages == LastN(added, maxMessages)
    }

    /** The key that finds this context. */
    function Key(): string {
      ContextKey(agentId, userId)
    }

    /** What the object holds. */
    ghost function View(): Slot
      reads this
    {
      Slot(contextId, Key(), maxMessages, messages, added)
    }

    method AddMessage(role: string, content: string)
      requires Valid()
      modifies this
      ensures Valid() && added == old(added) + [Message(role, content)]
      ensures 0 < maxMessages ==>
        messages == if |added| <= maxMessages then added else added[|added| - maxMessages..]
    {
      if 0 < maxMessages {
        LastNAppend(added, Message(role, content), maxMessages);
      }
      messages := messages + [Message(role, content)];
      if |messages| > maxMessages {
        messages := LastN(messages, maxMessages);
      }
      added := added + [Message(role, content)];
    }
  }

  // ---------------------------------------------------------------------------------------------
  // Runs of context operations
  // ---------------------------------------------------------------------------------------------

  /** Everything added to each open context, by key. */
  type Book = map<string, seq<Message>>

  /** Finding or creating a context, adding a message to it, and clearing it. */
  datatype ContextOp = Open(key: string) | Say(key: string, message: Message) | Clear(key: string)

  function Turn(b: Book, op: ContextOp): Book {
    var sofar := if op.key in b then b[op.key] else [];
    match op
    case Open(key) => b[key := sofar]
    case Say(key, m) => b[key := sofar + [m]]
    case Clear(key) => b - {key}
  }

  function Played(ops: seq<ContextOp>): Book {
    if ops == [] then map[] else Turn(Played(ops[..|ops| - 1]), ops[|ops| - 1])
  }

  lemma PlayedSnoc(ops: seq<ContextOp>, op: ContextOp)
    ensures Played(ops + [op]) == Turn(Played(ops), op)
  {
    assert (ops + [op])[..|ops|] == ops;
  }

  /** What follows the last clearing of the key. */
  function SinceClear(ops: seq<ContextOp>, key: string): seq<ContextOp> {
    if ops == [] || ops[|ops| - 1] == Clear(key) then []
    else SinceClear(ops[..|ops| - 1], key) + [ops[|ops| - 1]]
  }

  /** The messages for the key, in order. */
  function Said(ops: seq<ContextOp>, key: string): seq<Message> {
    if ops == [] then []
    else (if ops[0].Say? && ops[0].key == key then [ops[0].message] else []) + Said(ops[1..], key)
  }

  lemma {:induction false} SaidSnoc(ops: seq<ContextOp>, op: ContextOp, key: string)
    ensures Said(ops + [op], key) == Said(ops, key) + if op.Say? && op.key == key then [op.message] else []
  {
    if ops == [] {
      assert ops + [op] == [op];
    } else {
      assert (ops + [op])[1..] == ops[1..] + [op];
      SaidSnoc(ops[1..], op, key);
    }
  }

  /** A key is in the book exactly if it was used since it was last cleared, with exactly the messages said since then. */
  lemma {:induction false} PlayedIsSinceClear(ops: seq<ContextOp>, key: string)
    ensures key in Played(ops) <==> exists op :: op in SinceClear(ops, key) && op.key == key
    ensures key in Played(ops) ==> Played(ops)[key] == Said(SinceClear(ops, key), key)
    ensures key !in Played(ops) ==> Said(SinceClear(ops, key), key) == []
  {
    if ops != [] {
      var before, op := ops[..|ops| - 1], ops[|ops| - 1];
      PlayedIsSinceClear(before, key);
      if op != Clear(key) {
        SaidSnoc(SinceClear(before, key), op, key);
        assert op in SinceClear(ops, key);
        assert forall o :: o in SinceClear(ops, key) <==> o in SinceClear(before, key) || o == op;
      }
    }
  }

  // ---------------------------------------------------------------------------------------------
  // A shelf of contexts
  // ---------------------------------------------------------------------------------------------

  /**
   * Keys and contexts are in bijection: each key leads to the context it is the key of, each context is stored under
   * its own id and reached by its own key, and holds the last 20 of everything added to it.
   */
  ghost predicate Bijective(slots: map<string, Slot>, byKey: map<string, string>) {
    && (forall k {:trigger Leads(slots, byKey, k)} :: k in byKey ==> Leads(slots, byKey, k))
    && (forall id {:trigger Filed(slots, byKey, id)} :: id in slots ==> Filed(slots, byKey, id))
  }

  ghost predicate Leads(slots: map<string, Slot>, byKey: map<string, string>, k: string)
    requires k in byKey
  {
    byKey[k] in slots && slots[byKey[k]].key == k
  }

  ghost predicate Filed(slots: map<string, Slot>, byKey: map<string, string>, id: string)
    requires id in slots
  {
    slots[id].key in byKey && byKey[slots[id].key] == id && Sound(slots[id], id)
  }

  ghost predicate Sound(slot: Slot, id: string) {
    slot.id == id && slot.limit == DEFAULT_MAX_MESSAGES && slot.messages == LastN(slot.added, slot.limit)
  }

  /** The context of the key, if there is one, holds what the operations amount to. */
  ghost predicate Recorded(slots: map<string, Slot>, byKey: map<string, string>, ops: seq<ContextOp>, k: string) {
    && (k in byKey <==> k in Played(ops))
    && (k in byKey && byKey[k] in slots ==> slots[byKey[k]].added == Played(ops)[k])
  }

  /** Keys and contexts are in bijection and hold what the operations amount to. */
  ghost predicate Accounts(slots: map<string, Slot>, byKey: map<string, string>, ops: seq<ContextOp>) {
    && Bijective(slots, byKey)
    && forall k {:trigger Recorded(slots, byKey, ops, k)} :: Recorded(slots, byKey, ops, k)
  }

  lemma OpenSlot(slots: map<string, Slot>, byKey: map<string, string>, ops: seq<ContextOp>, key: string)
    requires Accounts(slots, byKey, ops) && key in byKey
    ensures Accounts(slots, byKey, ops + [Open(key)])
    ensures Leads(slots, byKey, key) && Sound(slots[byKey[key]], byKey[key])
  {
    assert Leads(slots, byKey, key) && Filed(slots, byKey, byKey[key]);
    PlayedSnoc(ops, Open(key));
    forall k
      ensures Recorded(slots, byKey, ops + [Open(key)], k)
    {
      assert Recorded(slots, byKey, ops, k) && Recorded(slots, byKey, ops, key);
    }
  }

  lemma FileSlot(slots: map<string, Slot>, byKey: map<string, string>, ops: seq<ContextOp>, slot: Slot)
    requires Accounts(slots, byKey, ops) && slot.key !in byKey && slot.id !in slots
    requires slot.added == [] && Sound(slot, slot.id)
    ensures Accounts(slots[slot.id := slot], byKey[slot.key := slot.id], ops + [Open(slot.key)])
  {
    var slots', byKey' := slots[slot.id := slot], byKey[slot.key := slot.id];
    forall k | k in byKey'
      ensures Leads(slots', byKey', k)
    {
      assert k != slot.key ==> Leads(slots, byKey, k);
    }
    forall id | id in slots'
      ensures Filed(slots', byKey', id)
    {
      assert id != slot.id ==> Filed(slots, byKey, id);
    }
    PlayedSnoc(ops, Open(slot.key));
    forall k
      ensures Recorded(slots', byKey', ops + [Open(slot.key)], k)
    {
      assert Recorded(slots, byKey, ops, k);
      assert k in byKey ==> Leads(slots, byKey, k);
    }
  }

  lemma DropSlot(slots: map<string, Slot>, byKey: map<string, string>, ops: seq<ContextOp>, key: string)
    requires Accounts(slots, byKey, ops) && key in byKey
    ensures Accounts(slots - {byKey[key]}, byKey - {key}, ops + [Clear(key)])
    ensures Leads(slots, byKey, key)
  {
    var slots', byKey' := slots - {byKey[key]}, byKey - {key};
    assert Leads(slots, byKey, key);
    forall k | k in byKey'
      ensures Leads(slots', byKey', k)
    {
      assert Leads(slots, byKey, k);
    }
    forall id | id in slots'
      ensures Filed(slots', byKey', id)
    {
      assert Filed(slots, byKey, id);
    }
    PlayedSnoc(ops, Clear(key));
    forall k
      ensures Recorded(slots', byKey', ops + [Clear(key)], k)
    {
      assert Recorded(slots, byKey, ops, k);
      assert k in byKey' ==> Leads(slots', byKey', k);
    }
  }

  lemma DropNoSlot(slots: map<string, Slot>, byKey: map<string, string>, ops: seq<ContextOp>, key: string)
    requires Accounts(slots, byKey, ops) && key !in byKey
    ensures Accounts(slots, byKey, ops + [Clear(key)])
  {
    PlayedSnoc(ops, Clear(key));
    forall k
      ensures Recorded(slots, byKey, ops + [Clear(key)], k)
    {
      assert Recorded(slots, byKey, ops, k);
    }
  }

  lemma FillSlot(slots: map<string, Slot>, byKey: map<string, string>, ops: seq<ContextOp>, slot: Slot, m: Message)
    requires Accounts(slots, byKey, ops) && slot.key in byKey && Leads(slots, byKey, slot.key)
    requires Sound(slot, byKey[slot.key]) && slot.added == slots[byKey[slot.key]].added + [m]
    ensures Accounts(slots[slot.id := slot], byKey, ops + [Say(slot.key, m)])
  {
    var slots' := slots[slot.id := slot];
    forall k | k in byKey
      ensures Leads(slots', byKey, k)
    {
      assert Leads(slots, byKey, k);
    }
    forall id | id in slots'
      ensures Filed(slots', byKey, id)
    {
      assert Filed(slots, byKey, id);
    }
    PlayedSnoc(ops, Say(slot.key, m));
    forall k
      ensures Recorded(slots', byKey, ops + [Say(slot.key, m)], k)
    {
      assert Recorded(slots, byKey, ops, k) && Recorded(slots, byKey, ops, slot.key);
      assert k in byKey ==> Leads(slots, byKey, k);
    }
  }

  /**
   * There is a context for a key exactly if the key was used since it was last cleared; it belongs to the key and holds
   * the last 20 messages added to the key since then, in order.
   */
  lemma ContextsHoldRecentMessages(slots: map<string, Slot>, byKey: map<string, string>, ops: seq<ContextOp>, key: string)
    requires Accounts(slots, byKey, ops)
    ensures key in byKey <==> exists op :: op in SinceClear(ops, key) && op.key == key
    ensures key in byKey ==>
      && Leads(slots, byKey, key)
      && var said := Said(SinceClear(ops, key), key);
         slots[byKey[key]].messages == if |said| <= 20 then said else said[|said| - 20..]
  {
    PlayedIsSinceClear(ops, key);
    assert Recorded(slots, byKey, ops, key);
    if key in byKey {
      assert Leads(slots, byKey, key) && Filed(slots, byKey, byKey[key]);
    }
  }
}
