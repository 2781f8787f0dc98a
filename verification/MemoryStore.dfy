/** The doubly indexed memory store, which also keeps the conversation contexts (agents/memory_agent.py). */
module Memories {
  import opened Common
  import opened Contexts

  datatype MemoryType = Fact | Preference | ContextMemory | Instruction | Entity

  datatype Scope = Private | Shared | Global

  /** Times are seconds. */
  datatype Memory = Memory(
    id: string,
    ownerId: string,
    memoryType: MemoryType,
    scope: Scope,
    content: string,
    expiresAt: Option<int>,
    lastAccessed: int,
    accessCount: nat,
    importance: real,
    sharedWith: set<string>
  )

  /** `_memories` and `_by_owner`. */
  datatype Index = Index(memories: map<string, Memory>, byOwner: map<string, set<string>>)

  predicate IsExpired(m: Memory, now: int) {
    m.expiresAt.Some? && now > m.expiresAt.value
  }

  predicate CanAccess(m: Memory, accessor: string) {
    m.ownerId == accessor || m.scope == Global || (m.scope == Shared && accessor in m.sharedWith)
  }

  /** `_by_owner.get(owner, set())`. */
  function Owned(x: Index, owner: string): set<string> {
    if owner in x.byOwner then x.byOwner[owner] else {}
  }

  /** The owner index is exactly the inverse image of ownership, and records are filed under their own id. */
  ghost predicate Indexed(x: Index) {
    && (forall owner, id :: id in Owned(x, owner) <==> id in x.memories && x.memories[id].ownerId == owner)
    && (forall id :: id in x.memories ==> x.memories[id].id == id)
  }

  // ---------------------------------------------------------------------------------------------
  // Operations on the index
  // ---------------------------------------------------------------------------------------------

  function Stored(x: Index, m: Memory): Index {
    Index(x.memories[m.id := m], x.byOwner[m.ownerId := Owned(x, m.ownerId) + {m.id}])
  }

  predicate Readable(x: Index, id: string, accessor: string, now: int) {
    id in x.memories && !IsExpired(x.memories[id], now) && CanAccess(x.memories[id], accessor)
  }

  function Accessed(x: Index, id: string, now: int): Index
    requires id in x.memories
  {
    var m := x.memories[id];
    x.(memories := x.memories[id := m.(accessCount := m.accessCount + 1, lastAccessed := now)])
  }

  function Removed(x: Index, id: string): Index
    requires id in x.memories
  {
    var owner := x.memories[id].ownerId;
    Index(x.memories - {id}, x.byOwner[owner := Owned(x, owner) - {id}])
  }

  predicate Deletable(x: Index, id: string, deleter: string) {
    id in x.memories && x.memories[id].ownerId == deleter
  }

  function ExpiredIds(x: Index, now: int): set<string> {
    set id | id in x.memories && IsExpired(x.memories[id], now)
  }

  /** Storing keeps the index exact precisely when the id is new or already belongs to the same owner. */
  lemma StoreKeepsIndexIff(x: Index, m: Memory)
    requires Indexed(x)
    ensures Indexed(Stored(x, m)) <==> m.id !in x.memories || x.memories[m.id].ownerId == m.ownerId
  {
    var x' := Stored(x, m);
    if m.id in x.memories && x.memories[m.id].ownerId != m.ownerId {
      var before := x.memories[m.id].ownerId;
      assert m.id in Owned(x, before);
      assert Owned(x', before) == Owned(x, before);
      assert x'.memories[m.id].ownerId == m.ownerId;
    } else {
      forall owner, id
        ensures id in Owned(x', owner) <==> id in x'.memories && x'.memories[id].ownerId == owner
      {
        assert id in Owned(x, owner) <==> id in x.memories && x.memories[id].ownerId == owner;
      }
    }
  }

  lemma AccessKeepsIndex(x: Index, id: string, now: int)
    requires Indexed(x) && id in x.memories
    ensures Indexed(Accessed(x, id, now))
  {
    var x' := Accessed(x, id, now);
    forall owner, k
      ensures k in Owned(x', owner) <==> k in x'.memories && x'.memories[k].ownerId == owner
    {
      assert k in Owned(x, owner) <==> k in x.memories && x.memories[k].ownerId == owner;
    }
  }

  lemma RemoveKeepsIndex(x: Index, id: string)
    requires Indexed(x) && id in x.memories
    ensures Indexed(Removed(x, id))
  {
    var x' := Removed(x, id);
    forall owner, k
      ensures k in Owned(x', owner) <==> k in x'.memories && x'.memories[k].ownerId == owner
    {
      assert k in Owned(x, owner) <==> k in x.memories && x.memories[k].ownerId == owner;
    }
  }

  /** `x` without the ids `gone`. */
  function Dropped(x: Index, gone: set<string>): Index {
    Index(x.memories - gone, map owner | owner in x.byOwner :: x.byOwner[owner] - gone)
  }

  /** Drops every expired memory. */
  function Cleaned(x: Index, now: int): Index {
    Dropped(x, ExpiredIds(x, now))
  }

  lemma CleanKeepsIndex(x: Index, now: int)
    requires Indexed(x)
    ensures Indexed(Cleaned(x, now))
  {
    var x' := Cleaned(x, now);
    forall owner, id
      ensures id in Owned(x', owner) <==> id in x'.memories && x'.memories[id].ownerId == owner
    {
      assert id in Owned(x, owner) <==> id in x.memories && x.memories[id].ownerId == owner;
    }
  }

  /** What cleaning leaves: the live memories and, for each owner, their ids. */
  lemma CleanedParts(x: Index, now: int)
    requires Indexed(x)
    ensures var x' := Cleaned(x, now);
            && x'.byOwner.Keys == x.byOwner.Keys
            && (forall owner :: owner in x.byOwner ==>
                  x'.byOwner[owner] == set id | id in x.byOwner[owner] && id in x'.memories)
            && |ExpiredIds(x, now)| == |x.memories| - |x'.memories|
  {
    var x', gone := Cleaned(x, now), ExpiredIds(x, now);
    forall owner | owner in x.byOwner
      ensures x'.byOwner[owner] == set id | id in x.byOwner[owner] && id in x'.memories
    {
      forall id | id in x.byOwner[owner]
        ensures id in x.memories
      {
        assert id in Owned(x, owner);
      }
    }
    assert gone <= x.memories.Keys && x'.memories.Keys == x.memories.Keys - gone;
  }

  lemma DropNothing(x: Index)
    ensures Dropped(x, {}) == x
  {
    assert x.memories - {} == x.memories;
    assert forall owner :: owner in x.byOwner ==> x.byOwner[owner] - {} == x.byOwner[owner];
    assert Dropped(x, {}).byOwner == x.byOwner;
  }

  lemma RemoveOne(x: Index, gone: set<string>, id: string)
    requires Indexed(x) && id in x.memories && id !in gone
    ensures Removed(Dropped(x, gone), id) == Dropped(x, gone + {id})
  {
    var owner := x.memories[id].ownerId;
    assert id in Owned(x, owner);
    forall other | other in x.byOwner && other != owner
      ensures x.byOwner[other] - gone == x.byOwner[other] - (gone + {id})
    {
      assert id !in Owned(x, other);
    }
    var a, b := Removed(Dropped(x, gone), id), Dropped(x, gone + {id});
    assert a.memories == b.memories;
    assert a.byOwner[owner] == b.byOwner[owner];
    assert a.byOwner == b.byOwner;
  }

  datatype Op =
    | Store(m: Memory)
    | Get(id: string, accessor: string, now: int)
    | Delete(id: string, deleter: string)
    | Cleanup(now: int)

  function Step(x: Index, op: Op): Index {
    match op
    case Store(m) => Stored(x, m)
    case Get(id, accessor, now) => if Readable(x, id, accessor, now) then Accessed(x, id, now) else x
    case Delete(id, deleter) => if Deletable(x, id, deleter) then Removed(x, id) else x
    case Cleanup(now) => Cleaned(x, now)
  }

  function Run(x: Index, ops: seq<Op>): Index
    decreases |ops|
  {
    if ops == [] then x else Run(Step(x, ops[0]), ops[1..])
  }

  /** Every store in the run uses a new id or one that its owner already has; drawn ids are always new. */
  predicate KeepsOwners(x: Index, ops: seq<Op>)
    decreases |ops|
  {
    ops == [] ||
    ((ops[0].Store? ==> ops[0].m.id !in x.memories || x.memories[ops[0].m.id].ownerId == ops[0].m.ownerId)
     && KeepsOwners(Step(x, ops[0]), ops[1..]))
  }

  /** After every such run the owner index is exactly the inverse image of ownership. */
  lemma {:induction false} RunKeepsIndex(x: Index, ops: seq<Op>)
    requires Indexed(x) && KeepsOwners(x, ops)
    ensures Indexed(Run(x, ops))
    decreases |ops|
  {
    if ops != [] {
      match ops[0] {
        case Store(m) => StoreKeepsIndexIff(x, m);
        case Get(id, accessor, now) => if Readable(x, id, accessor, now) { AccessKeepsIndex(x, id, now); }
        case Delete(id, deleter) => if Deletable(x, id, deleter) { RemoveKeepsIndex(x, id); }
        case Cleanup(now) => CleanKeepsIndex(x, now);
      }
      RunKeepsIndex(Step(x, ops[0]), ops[1..]);
    }
  }

  // ---------------------------------------------------------------------------------------------
  // Search
  // ---------------------------------------------------------------------------------------------

  function Lower(s: string): string {
    if s == "" then "" else [if 'A' <= s[0] <= 'Z' then s[0] + ('a' - 'A') else s[0]] + Lower(s[1..])
  }

  predicate Contains(s: string, part: string) {
    part <= s || (s != "" && Contains(s[1..], part))
  }

  /** A live memory that passes the optional filters; an empty query filters nothing. */
  predicate Hit(m: Memory, query: Option<string>, kind: Option<MemoryType>, now: int) {
    && !IsExpired(m, now)
    && (kind.Some? ==> m.memoryType == kind.value)
    && (query.Some? && query.value != "" ==> Contains(Lower(m.content), Lower(query.value)))
  }

  lemma {:induction false} LowerIs(s: string)
    ensures |Lower(s)| == |s|
    ensures forall i :: 0 <= i < |s| ==>
              Lower(s)[i] == if 'A' <= s[i] <= 'Z' then ((s[i] as int) + 32) as char else s[i]
  {
    if s != "" {
      LowerIs(s[1..]);
    }
  }

  predicate OccursAt(s: string, part: string, i: int) {
    0 <= i && i + |part| <= |s| && s[i..i + |part|] == part
  }

  ghost predicate Occurs(s: string, part: string) {
    exists i :: OccursAt(s, part, i)
  }

  lemma OccursInTail(s: string, part: string, i: int)
    requires s != "" && i > 0
    ensures OccursAt(s, part, i) <==> OccursAt(s[1..], part, i - 1)
  {
    if i + |part| <= |s| {
      assert s[1..][i - 1..i - 1 + |part|] == s[i..i + |part|];
    }
  }

  lemma OccursInFront(s: string, part: string)
    ensures OccursAt(s, part, 0) <==> part <= s
  {
    if |part| <= |s| {
      assert s[0..|part|] == s[..|part|];
    }
  }

  lemma {:induction false} ContainsIsOccurs(s: string, part: string)
    ensures Contains(s, part) <==> Occurs(s, part)
  {
    OccursInFront(s, part);
    if s != "" {
      ContainsIsOccurs(s[1..], part);
      if i :| OccursAt(s[1..], part, i) {
        OccursInTail(s, part, i + 1);
      }
      if i :| OccursAt(s, part, i) && i > 0 {
        OccursInTail(s, part, i);
      }
    }
  }

  /** Which memories a search finds: live, of the kind asked for, with the query somewhere in the text, case aside. */
  lemma HitIs(m: Memory, query: Option<string>, kind: Option<MemoryType>, now: int)
    ensures Hit(m, query, kind, now) <==>
              && (m.expiresAt.Some? ==> now <= m.expiresAt.value)
              && (kind.Some? ==> m.memoryType == kind.value)
              && (query.Some? && query.value != "" ==> Occurs(Lower(m.content), Lower(query.value)))
  {
    if query.Some? {
      ContainsIsOccurs(Lower(m.content), Lower(query.value));
    }
  }

  /** Descending by importance, then by last access. */
  predicate RanksFirst(a: Memory, b: Memory) {
    a.importance > b.importance || (a.importance == b.importance && a.lastAccessed >= b.lastAccessed)
  }

  /** The ids among `ids` whose memory is a hit. */
  function HitIds(x: Index, ids: set<string>, query: Option<string>, kind: Option<MemoryType>, now: int): set<string> {
    set id | id in ids && id in x.memories && Hit(x.memories[id], query, kind, now)
  }

  lemma HitIdsOneMore(x: Index, ids: set<string>, left: set<string>, id: string,
                      query: Option<string>, kind: Option<MemoryType>, now: int)
    requires id in left && left <= ids
    ensures var before := HitIds(x, ids - left, query, kind, now);
            && id !in before
            && HitIds(x, ids - (left - {id}), query, kind, now)
               == before + if id in x.memories && Hit(x.memories[id], query, kind, now) then {id} else {}
  {
    assert ids - (left - {id}) == (ids - left) + {id};
  }

  /** `s` lists the memories filed under `ids`, each once. */
  ghost predicate Lists(s: seq<Memory>, x: Index, ids: set<string>) {
    && |s| == |ids|
    && (forall m :: m in s <==> m.id in ids && m.id in x.memories && x.memories[m.id] == m)
    && OnceEach(s)
  }

  ghost predicate OnceEach(s: seq<Memory>) {
    forall m :: m in s ==> multiset(s)[m] == 1
  }

  lemma OnceEachCut(s: seq<Memory>, n: nat)
    requires OnceEach(s) && n <= |s|
    ensures OnceEach(s[..n])
  {
    assert s == s[..n] + s[n..];
    forall m | m in s[..n]
      ensures multiset(s[..n])[m] == 1
    {
      assert m in s && multiset(s)[m] == multiset(s[..n])[m] + multiset(s[n..])[m];
    }
  }

  lemma OnceEachSnoc(s: seq<Memory>, m: Memory)
    requires OnceEach(s) && m !in s
    ensures OnceEach(s + [m])
  {
    forall x | x in s + [m]
      ensures multiset(s + [m])[x] == 1
    {
      assert x != m ==> x in s && multiset(s)[x] == 1;
      assert m !in multiset(s);
    }
  }

  lemma ListsSnoc(s: seq<Memory>, x: Index, ids: set<string>, id: string)
    requires Lists(s, x, ids) && id !in ids && id in x.memories && x.memories[id].id == id
    ensures Lists(s + [x.memories[id]], x, ids + {id})
  {
    OnceEachSnoc(s, x.memories[id]);
  }

  lemma ListsSorted(s: seq<Memory>, x: Index, ids: set<string>)
    requires Lists(s, x, ids)
    ensures Lists(Sort(s, RanksFirst), x, ids) && Ordered(Sort(s, RanksFirst), RanksFirst)
  {
    SortOrdered(s, RanksFirst);
    SortMembers(s, RanksFirst);
  }

  /** Nothing in `found` is less important than `m`, or equally important and used longer ago. */
  ghost predicate NoWorse(found: seq<Memory>, m: Memory) {
    forall f :: f in found ==>
      f.importance > m.importance || (f.importance == m.importance && f.lastAccessed >= m.lastAccessed)
  }

  ghost predicate BestFirst(found: seq<Memory>) {
    forall j :: 0 <= j < |found| ==> NoWorse(found[..j], found[j])
  }

  /** The memories filed under some of the ids, each once. */
  ghost predicate ListsSome(found: seq<Memory>, x: Index, ids: set<string>) {
    forall m :: m in found ==> multiset(found)[m] == 1 && m.id in ids && m.id in x.memories && x.memories[m.id] == m
  }

  /** The first of a sorted list of all hits: the best of them, each once, best first. */
  ghost predicate Best(found: seq<Memory>, x: Index, hits: set<string>, limit: nat)
    requires hits <= x.memories.Keys
  {
    && |found| == (if |hits| < limit then |hits| else limit)
    && ListsSome(found, x, hits)
    && BestFirst(found)
    && forall id :: id in hits && x.memories[id] !in found ==> NoWorse(found, x.memories[id])
  }

  lemma ListsCut(s: seq<Memory>, x: Index, ids: set<string>, limit: nat)
    requires Lists(s, x, ids) && Ordered(s, RanksFirst) && ids <= x.memories.Keys
    requires forall id :: id in ids ==> x.memories[id].id == id
    ensures Best(if |s| <= limit then s else s[..limit], x, ids, limit)
  {
    var n := if |s| <= limit then |s| else limit;
    assert |s| <= limit ==> s[..n] == s;
    CutListsSome(s, x, ids, n);
    CutIsBestFirst(s, n);
    forall id | id in ids && x.memories[id] !in s[..n]
      ensures NoWorse(s[..n], x.memories[id])
    {
      CutIsNoWorse(s, n, x.memories[id]);
    }
  }

  lemma CutListsSome(s: seq<Memory>, x: Index, ids: set<string>, n: nat)
    requires Lists(s, x, ids) && n <= |s|
    ensures ListsSome(s[..n], x, ids)
  {
    OnceEachCut(s, n);
    assert forall m :: m in s[..n] ==> m in s;
  }

  lemma CutIsBestFirst(s: seq<Memory>, n: nat)
    requires Ordered(s, RanksFirst) && n <= |s|
    ensures BestFirst(s[..n])
  {
    forall j | 0 <= j < n
      ensures NoWorse(s[..n][..j], s[..n][j])
    {
      EarlierNoWorse(s, j);
      assert s[..n][..j] == s[..j];
    }
  }

  lemma CutIsNoWorse(s: seq<Memory>, n: nat, m: Memory)
    requires Ordered(s, RanksFirst) && n <= |s| && m in s && m !in s[..n]
    ensures NoWorse(s[..n], m)
  {
    var j :| 0 <= j < |s| && s[j] == m;
    assert forall i :: 0 <= i < n ==> s[i] == s[..n][i] && s[i] in s[..n];
    EarlierNoWorse(s, j);
    forall f | f in s[..n]
      ensures f in s[..j]
    {
      var i :| 0 <= i < n && s[i] == f;
      assert s[..j][i] == f;
    }
  }

  lemma EarlierNoWorse(s: seq<Memory>, j: nat)
    requires Ordered(s, RanksFirst) && j < |s|
    ensures NoWorse(s[..j], s[j])
  {
    forall f | f in s[..j]
      ensures RanksFirst(f, s[j])
    {
      var i :| 0 <= i < j && s[i] == f;
    }
  }

  // ---------------------------------------------------------------------------------------------
  // The store
  // ---------------------------------------------------------------------------------------------

  class MemoryStore {
    var memories: map<string, Memory>
    var byOwner: map<string, set<string>>
    var contexts: map<string, ConversationContext>
    var contextByAgent: map<string, string>
    /** The stored contexts, what they hold, and every context operation made so far. */
    ghost var shelf: set<ConversationContext>
    ghost var slots: map<string, Slot>
    ghost var contextOps: seq<ContextOp>

    constructor ()
      ensures Indexed(View()) && Linked()
      ensures memories == map[] && contexts == map[] && contextOps == [] && shelf == {}
    {
      memories, byOwner, contexts, contextByAgent := map[], map[], map[], map[];
      shelf, slots, contextOps := {}, map[], [];
    }

    function View(): Index
      reads `memories, `byOwner
    {
      Index(memories, byOwner)
    }

    /** `slots` mirrors the stored objects, so contexts with different ids are different objects. */
    ghost predicate Mirrored()
      reads `contexts, `slots, `shelf, shelf
    {
      && contexts.Keys == slots.Keys
      && forall id :: id in contexts ==>
           contexts[id] in shelf && contexts[id].View() == slots[id] && contexts[id].contextId == id
    }

    /**
     * Keys and contexts are in bijection, each context belongs to its key and holds the last 20 messages added to it,
     * and what was added to them is what the context operations so far amount to.
     */
    ghost predicate Linked()
      reads `contexts, `contextByAgent, `slots, `contextOps, `shelf, shelf
    {
      Mirrored() && Accounts(slots, contextByAgent, contextOps)
    }

    method StoreMemory(m: Memory) returns (id: string)
      modifies `memories, `byOwner
      ensures id == m.id && View() == Stored(old(View()), m)
      ensures memories == old(memories)[m.id := m]
      ensures byOwner == old(byOwner)[m.ownerId :=
                (if m.ownerId in old(byOwner) then old(byOwner)[m.ownerId] else {}) + {m.id}]
      ensures old(Indexed(View())) ==>
                (Indexed(View()) <==> m.id !in old(memories) || old(memories)[m.id].ownerId == m.ownerId)
    {
      if Indexed(View()) {
        StoreKeepsIndexIff(View(), m);
      }
      ghost var x := View();
      memories := memories[m.id := m];
      byOwner := byOwner[m.ownerId := (if m.ownerId in byOwner then byOwner[m.ownerId] else {}) + {m.id}];
      assert View() == Stored(x, m);
      id := m.id;
    }

    method GetMemory(id: string, accessor: string, now: int) returns (found: Option<Memory>)
      modifies `memories
      ensures found.Some? <==>
                && id in old(memories)
                && var m := old(memories)[id];
                && (m.expiresAt.Some? ==> now <= m.expiresAt.value)
                && (m.ownerId == accessor || m.scope == Global || (m.scope == Shared && accessor in m.sharedWith))
      ensures found.Some? ==>
        && found.value == old(memories)[id].(accessCount := old(memories)[id].accessCount + 1, lastAccessed := now)
        && memories == old(memories)[id := found.value]
      ensures found.None? ==> memories == old(memories)
      ensures View() == Step(old(View()), Get(id, accessor, now))
      ensures old(Indexed(View())) ==> Indexed(View())
    {
      if id !in memories {
        return None;
      }
      var m := memories[id];
      if IsExpired(m, now) || !CanAccess(m, accessor) {
        return None;
      }
      if Indexed(View()) {
        AccessKeepsIndex(View(), id, now);
      }
      m := m.(accessCount := m.accessCount + 1, lastAccessed := now);
      memories := memories[id := m];
      found := Some(m);
    }

    method DeleteMemory(id: string, deleter: string) returns (ok: bool)
      modifies `memories, `byOwner
      ensures ok <==> id in old(memories) && old(memories)[id].ownerId == deleter
      ensures memories == if ok then old(memories) - {id} else old(memories)
      ensures byOwner == if ok then old(byOwner)[deleter := (if deleter in old(byOwner) then old(byOwner)[deleter] else {}) - {id}]
                         else old(byOwner)
      ensures View() == Step(old(View()), Delete(id, deleter))
      ensures old(Indexed(View())) ==> Indexed(View())
    {
      if id !in memories || memories[id].ownerId != deleter {
        return false;
      }
      if Indexed(View()) {
        RemoveKeepsIndex(View(), id);
      }
      Remove(id);
      ok := true;
    }

    method Remove(id: string)
      requires id in memories
      modifies `memories, `byOwner
      ensures View() == Removed(old(View()), id)
    {
      var owner := memories[id].ownerId;
      memories := memories - {id};
      byOwner := byOwner[owner := (if owner in byOwner then byOwner[owner] else {}) - {id}];
    }

    /** Removes every expired memory and nothing else. */
    method CleanupExpired(now: int) returns (count: nat)
      requires Indexed(View())
      modifies `memories, `byOwner
      ensures Indexed(View()) && View() == Step(old(View()), Cleanup(now))
      ensures forall id :: id in memories <==>
                id in old(memories) && (old(memories)[id].expiresAt.Some? ==> now <= old(memories)[id].expiresAt.value)
      ensures forall id :: id in memories ==> memories[id] == old(memories)[id]
      ensures byOwner.Keys == old(byOwner).Keys
      ensures forall owner :: owner in byOwner ==> byOwner[owner] == set id | id in old(byOwner)[owner] && id in memories
      ensures count == |old(memories)| - |memories|
    {
      var expired := ExpiredIds(View(), now);
      CleanKeepsIndex(View(), now);
      CleanedParts(View(), now);
      RemoveAll(expired);
      count := |expired|;
    }

    /** The loop over the collected ids, in any order. */
    method RemoveAll(ids: set<string>)
      requires Indexed(View()) && ids <= memories.Keys
      modifies `memories, `byOwner
      ensures View() == Dropped(old(View()), ids)
    {
      var left := ids;
      DropNothing(View());
      assert ids - left == {};
      while left != {}
        invariant left <= ids && Indexed(View())
        invariant View() == Dropped(old(View()), ids - left)
        decreases left
      {
        var id :| id in left;
        RemoveKeepsIndex(View(), id);
        RemoveOne(old(View()), ids - left, id);
        Remove(id);
        assert ids - (left - {id}) == (ids - left) + {id};
        left := left - {id};
      }
      assert ids - left == ids;
    }

    /** The top `limit` live matches of an owner, best first. */
    method SearchMemories(owner: string, query: Option<string>, kind: Option<MemoryType>, limit: nat, now: int)
      returns (found: seq<Memory>)
      requires Indexed(View())
      ensures var hits := set id | id in memories && memories[id].ownerId == owner && Hit(memories[id], query, kind, now);
              Best(found, View(), hits, limit)
    {
      var ids := Owned(View(), owner);
      var results := Collect(ids, query, kind, now);
      ghost var hits := HitIds(View(), ids, query, kind, now);
      assert hits == set id | id in memories && memories[id].ownerId == owner && Hit(memories[id], query, kind, now);
      ListsSorted(results, View(), hits);
      results := Sort(results, RanksFirst);
      ListsCut(results, View(), hits, limit);
      found := if |results| <= limit then results else results[..limit];
    }

    /** The loop over the owner's ids, in any order. */
    method Collect(ids: set<string>, query: Option<string>, kind: Option<MemoryType>, now: int) returns (results: seq<Memory>)
      requires Indexed(View())
      ensures Lists(results, View(), HitIds(View(), ids, query, kind, now))
    {
      results := [];
      var left := ids;
      while left != {}
        invariant left <= ids
        invariant Lists(results, View(), HitIds(View(), ids - left, query, kind, now))
        decreases left
      {
        var id :| id in left;
        HitIdsOneMore(View(), ids, left, id, query, kind, now);
        if id in memories && Hit(memories[id], query, kind, now) {
          ListsSnoc(results, View(), HitIds(View(), ids - left, query, kind, now), id);
          results := results + [memories[id]];
        }
        left := left - {id};
      }
      assert ids - left == ids;
    }

    /** The context of an agent and user; `newId` is the id drawn for a new one. */
    method GetOrCreateContext(agentId: string, userId: Option<string>, newId: string) returns (c: ConversationContext)
      requires Linked() && newId !in contexts
      modifies `contexts, `contextByAgent, `slots, `contextOps, `shelf
      ensures Linked() && contextOps == old(contextOps) + [Open(ContextKey(agentId, userId))]
      ensures fresh(shelf - old(shelf))
      ensures c.Valid() && c.Key() == ContextKey(agentId, userId)
      ensures c.contextId in contexts && contexts[c.contextId] == c
      ensures ContextKey(agentId, userId) in contextByAgent && contextByAgent[ContextKey(agentId, userId)] == c.contextId
      ensures c.agentId == agentId ==> SameUser(c.userId, userId)
      ensures c.agentId == agentId || Extends(c.agentId, agentId) || Extends(agentId, c.agentId)
      ensures var key := ContextKey(agentId, userId);
              if key in old(contextByAgent) then
                contexts == old(contexts) && contextByAgent == old(contextByAgent)
              else
                && fresh(c)
                && c.contextId == newId && c.agentId == agentId && c.userId == userId && c.added == []
                && contextByAgent == old(contextByAgent)[key := newId]
                && contexts == old(contexts)[newId := c]
    {
      var key := ContextKey(agentId, userId);
      if key in contextByAgent {
        OpenSlot(slots, contextByAgent, contextOps, key);
      }
      if key in contextByAgent && contextByAgent[key] in contexts {
        contextOps := contextOps + [Open(key)];
        c := contexts[contextByAgent[key]];
        KeysMeetOnlyByExtension(agentId, userId, c.agentId, c.userId);
        UserKeys(agentId, c.userId, userId);
        return;
      }
      c := new ConversationContext(newId, agentId, userId, DEFAULT_MAX_MESSAGES);
      FileSlot(slots, contextByAgent, contextOps, c.View());
      Put(c);
      contextByAgent := contextByAgent[key := newId];
      contextOps := contextOps + [Open(key)];
    }

    /** Adds a message to a stored context. */
    method AddMessage(c: ConversationContext, role: string, content: string)
      requires Linked() && c.contextId in contexts && contexts[c.contextId] == c
      modifies `slots, `contextOps, c
      ensures Linked() && contextOps == old(contextOps) + [Say(c.Key(), Message(role, content))]
    {
      assert Filed(slots, contextByAgent, c.contextId);
      OpenSlot(slots, contextByAgent, contextOps, c.Key());
      c.AddMessage(role, content);
      FillSlot(slots, contextByAgent, contextOps, c.View(), Message(role, content));
      slots := slots[c.contextId := c.View()];
      contextOps := contextOps + [Say(c.Key(), Message(role, content))];
    }

    /** `self._contexts[context_id] = context`. */
    method Put(c: ConversationContext)
      requires Mirrored() && c.contextId !in contexts
      modifies `contexts, `slots, `shelf
      ensures Mirrored() && shelf == old(shelf) + {c}
      ensures contexts == old(contexts)[c.contextId := c] && slots == old(slots)[c.contextId := c.View()]
    {
      contexts, slots, shelf := contexts[c.contextId := c], slots[c.contextId := c.View()], shelf + {c};
    }

    /** `del self._contexts[context_id]`. */
    method Take(id: string)
      requires Mirrored() && id in contexts
      modifies `contexts, `slots, `shelf
      ensures Mirrored() && contexts == old(contexts) - {id} && slots == old(slots) - {id}
      ensures shelf <= old(shelf)
    {
      shelf, slots := shelf - {contexts[id]}, slots - {id};
      contexts := contexts - {id};
    }

    method ClearContext(agentId: string, userId: Option<string>) returns (ok: bool)
      requires Linked()
      modifies `contexts, `contextByAgent, `slots, `contextOps, `shelf
      ensures Linked() && contextOps == old(contextOps) + [Clear(ContextKey(agentId, userId))]
      ensures shelf <= old(shelf)
      ensures var key := ContextKey(agentId, userId);
              && (ok <==> key in old(contextByAgent))
              && (ok ==> contextByAgent == old(contextByAgent) - {key}
                         && contexts == old(contexts) - {old(contextByAgent)[key]})
              && (!ok ==> contextByAgent == old(contextByAgent) && contexts == old(contexts))
    {
      var key := ContextKey(agentId, userId);
      ghost var ops := contextOps;
      contextOps := contextOps + [Clear(key)];
      if key !in contextByAgent {
        DropNoSlot(slots, contextByAgent, ops, key);
        return false;
      }
      DropSlot(slots, contextByAgent, ops, key);
      var id := contextByAgent[key];
      contextByAgent := contextByAgent - {key};
      ok := false;
      if id in contexts {
        Take(id);
        ok := true;
      }
    }
  }

  /** `add_to_context`: finds or opens the context of the agent and user and adds the message. */
  method AddToContext(store: MemoryStore, agentId: string, userId: Option<string>, newId: string, role: string, content: string)
    returns (contextId: string, count: nat)
    requires store.Linked() && newId !in store.contexts
    modifies store`contexts, store`contextByAgent, store`slots, store`contextOps, store`shelf, store.shelf
    ensures store.Linked() && fresh(store.shelf - old(store.shelf))
    ensures var key := ContextKey(agentId, userId);
            store.contextOps == old(store.contextOps) + [Open(key), Say(key, Message(role, content))]
    ensures contextId in store.contexts && store.contexts[contextId].Key() == ContextKey(agentId, userId)
    ensures count == |store.contexts[contextId].messages|
    ensures store.contexts == old(store.contexts)[contextId := store.contexts[contextId]]
  {
    var key := ContextKey(agentId, userId);
    var c := store.GetOrCreateContext(agentId, userId, newId);
    assert store.contexts == old(store.contexts)[c.contextId := c];
    store.AddMessage(c, role, content);
    contextId, count := c.contextId, |c.messages|;
  }

  /**
   * After any run of context operations on a store: a key has a context exactly if it was used since it was last
   * cleared; that object belongs to the key and holds the last 20 messages added since then; other keys have others.
   */
  lemma StoreHoldsRecentMessages(store: MemoryStore, key: string, other: string)
    requires store.Linked()
    ensures key in store.contextByAgent <==> exists op :: op in SinceClear(store.contextOps, key) && op.key == key
    ensures key in store.contextByAgent ==>
      var id := store.contextByAgent[key];
      && id in store.contexts && store.contexts[id].Key() == key
      && var said := Said(SinceClear(store.contextOps, key), key);
         store.contexts[id].messages == if |said| <= 20 then said else said[|said| - 20..]
    ensures key in store.contextByAgent && other in store.contextByAgent && key != other ==>
      && store.contextByAgent[other] in store.contexts
      && store.contexts[store.contextByAgent[key]] != store.contexts[store.contextByAgent[other]]
  {
    ContextsHoldRecentMessages(store.slots, store.contextByAgent, store.contextOps, key);
    ContextsHoldRecentMessages(store.slots, store.contextByAgent, store.contextOps, other);
  }

  /** Two users of one agent have different contexts, unless both are the anonymous "system" user. */
  lemma UsersAreApart(store: MemoryStore, agentId: string, u: Option<string>, v: Option<string>)
    requires store.Linked() && !SameUser(u, v)
    ensures var x, y := ContextKey(agentId, u), ContextKey(agentId, v);
            x in store.contextByAgent && y in store.contextByAgent ==>
              && store.contextByAgent[x] in store.contexts && store.contextByAgent[y] in store.contexts
              && store.contexts[store.contextByAgent[x]] != store.contexts[store.contextByAgent[y]]
  {
    UserKeys(agentId, u, v);
    StoreHoldsRecentMessages(store, ContextKey(agentId, u), ContextKey(agentId, v));
  }
}
