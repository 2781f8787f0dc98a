/**
 * Many processes appending to one Redis-held audit log (core/audit.py: `_create_chain_entry`,
 * `_load_chain_state`, `_load_chain_entries`), as a step system. Every Redis round trip is its own step,
 * so any interleaving of any number of processes is a schedule of steps.
 */
module AuditProtocol {
  import opened Common
  import opened AuditChain

  /** The hash and `settings.audit_max_redis_entries`, the same for all processes. */
  datatype Config = Config(h: Hasher, max: nat)

  const MAX_RETRIES: nat := 20
  const CACHE_LIMIT: nat := 1000

  datatype ChainState = ChainState(
    lastSequence: int,
    lastHash: Hash,
    chainId: string,
    createdAt: string,
    entriesCount: int
  )

  /**
   * The two Redis keys, the change counter WATCH compares, and `log`, a history of every entry ever
   * committed that no process can read.
   */
  datatype Shared = Shared(state: Option<ChainState>, version: nat, entries: seq<Entry>, log: seq<Entry>)

  /** Where a process stands inside `_create_chain_entry` or start-up, with what it holds there. */
  datatype PC =
    | Booting
    | Loading
    | Idle
    | Retrying(ev: Event, attempt: nat)
    | Watching(ev: Event, attempt: nat, version: nat)
    | Holding(ev: Event, attempt: nat, version: nat, snapshot: Option<ChainState>)
    | Queued(ev: Event, attempt: nat, version: nat, entry: Entry, next: ChainState)

  /** Where a cached entry comes from: the in-memory fallback, or its place in the log. */
  datatype Origin = Local | Logged(position: nat)

  /** `cached` and `cache` are `_chain_state` and `_chain_entries`; `origins` records where each cached entry comes from. */
  datatype Proc = Proc(pc: PC, cached: ChainState, cache: seq<Entry>, origins: seq<Origin>)

  datatype System = System(shared: Shared, procs: map<nat, Proc>)

  datatype Action =
    | Restart(chainId: string, createdAt: string)
    | LoadState(ok: bool)
    | LoadEntries(ok: bool)
    | Begin(ev: Event)
    | BeginOffline(offline: Event, stamp: string)
    | Watch
    | Get
    | Build(stamp: string)
    | ExecConflict
    | ExecCommit
    | ExecLost
    | Fail
    | Fallback(stamp: string)

  // ---------------------------------------------------------------------------------------------
  // Sorted-set commands
  // ---------------------------------------------------------------------------------------------

  /** ZADD: keeps the set ordered by score, the entry's sequence number. */
  function ZAdd(s: seq<Entry>, e: Entry): seq<Entry> {
    if s == [] then [e]
    else if e.content.sequence < s[0].content.sequence then [e] + s
    else [s[0]] + ZAdd(s[1..], e)
  }

  /** ZREMRANGEBYRANK: ranks from the end when negative, both ends inclusive, clamped to the set. */
  function ZRemRangeByRank(s: seq<Entry>, start: int, stop: int): seq<Entry> {
    var lo := if start < 0 then start + |s| else start;
    var hi := if stop < 0 then stop + |s| else stop;
    var from := if lo < 0 then 0 else lo;
    if from > hi || from >= |s| then s
    else s[..from] + s[Min(hi, |s| - 1) + 1..]
  }

  function Newest(log: seq<Entry>, max: nat): seq<Entry> {
    log[|log| - Min(|log|, max)..]
  }

  /** The same, entry by entry. */
  ghost predicate AreNewest(entries: seq<Entry>, log: seq<Entry>, max: nat) {
    && |entries| == Min(|log|, max)
    && forall i {:trigger entries[i]} :: 0 <= i < |entries| ==> entries[i] == log[|log| - |entries| + i]
  }

  lemma AreNewestIff(entries: seq<Entry>, log: seq<Entry>, max: nat)
    ensures AreNewest(entries, log, max) <==> entries == Newest(log, max)
  {
    if AreNewest(entries, log, max) {
      assert entries == log[|log| - |entries|..];
    }
  }

  lemma {:induction false} ZAddAppends(s: seq<Entry>, e: Entry)
    requires forall i :: 0 <= i < |s| ==> s[i].content.sequence <= e.content.sequence
    ensures ZAdd(s, e) == s + [e]
  {
    if s != [] {
      ZAddAppends(s[1..], e);
      assert s + [e] == [s[0]] + (s[1..] + [e]);
    }
  }

  /** Adding to the newest `max` and then trimming with ranks 0 to -(max+1) leaves the newest `max` of the longer log. */
  lemma TrimKeepsNewest(log: seq<Entry>, e: Entry, max: nat)
    requires forall i :: 0 <= i < |log| ==> log[i].content.sequence < e.content.sequence
    ensures ZRemRangeByRank(ZAdd(Newest(log, max), e), 0, -(max + 1)) == Newest(log + [e], max)
  {
    ZAddAppends(Newest(log, max), e);
  }

  // ---------------------------------------------------------------------------------------------
  // Building and committing one entry
  // ---------------------------------------------------------------------------------------------

  /** The state an append starts from: what GET returned, or a fresh chain named after the process. */
  function Base(snapshot: Option<ChainState>, cached: ChainState): ChainState {
    match snapshot
    case Some(st) => st
    case None => ChainState(0, GENESIS_HASH, cached.chainId, cached.createdAt, 0)
  }

  function MakeEntry(h: Hasher, base: ChainState, ev: Event, stamp: string): Entry {
    var content := Content(base.lastSequence + 1, stamp, ev, base.lastHash);
    Entry(content, h(content))
  }

  function NextState(base: ChainState, entry: Entry): ChainState {
    base.(lastSequence := entry.content.sequence,
          lastHash := entry.entryHash,
          entriesCount := base.entriesCount + 1)
  }

  /** What EXEC applies in one go: SET, ZADD and ZREMRANGEBYRANK. */
  function Committed(c: Config, sh: Shared, entry: Entry, next: ChainState): Shared {
    Shared(Some(next), sh.version + 1,
           ZRemRangeByRank(ZAdd(sh.entries, entry), 0, -(c.max + 1)),
           sh.log + [entry])
  }

  /** The cache after one more entry. */
  function Remember<T>(cache: seq<T>, x: T): seq<T> {
    LastN(cache + [x], CACHE_LIMIT)
  }

  /** The local bookkeeping after EXEC was acknowledged; the cached chain id stays the process's own. */
  function Acknowledged(pr: Proc, entry: Entry, next: ChainState, position: nat): Proc {
    Proc(Idle,
         pr.cached.(lastSequence := next.lastSequence, lastHash := next.lastHash, entriesCount := next.entriesCount),
         Remember(pr.cache, entry), Remember(pr.origins, Logged(position)))
  }

  /** The in-memory fallback: it extends the cached state and never reads or writes Redis. */
  function FellBack(h: Hasher, pr: Proc, ev: Event, stamp: string): Proc {
    var entry := MakeEntry(h, pr.cached, ev, stamp);
    Proc(Idle, NextState(pr.cached, entry), Remember(pr.cache, entry), Remember(pr.origins, Local))
  }

  /** Start-up keeps the loaded entries only if their tip is the tip of the loaded state. */
  function LoadedEntries(entries: seq<Entry>, cached: ChainState): seq<Entry> {
    if entries != [] && entries[|entries| - 1].entryHash != cached.lastHash then [] else entries
  }

  /** `count` places in a row. */
  function Places(from: nat, count: nat): seq<Origin> {
    seq(count, i requires 0 <= i < count => Logged(from + i))
  }

  function At(pr: Proc, pc: PC): Proc {
    Proc(pc, pr.cached, pr.cache, pr.origins)
  }

  /** The next attempt of the retry loop. */
  function Again(pr: Proc): Proc
    requires InAttempt(pr.pc)
  {
    At(pr, Retrying(pr.pc.ev, pr.pc.attempt + 1))
  }

  /** The transaction queued after MULTI, computed from the snapshot the process holds. */
  function Prepared(h: Hasher, pr: Proc, stamp: string): PC
    requires pr.pc.Holding?
  {
    var base := Base(pr.pc.snapshot, pr.cached);
    var entry := MakeEntry(h, base, pr.pc.ev, stamp);
    Queued(pr.pc.ev, pr.pc.attempt, pr.pc.version, entry, NextState(base, entry))
  }

  function Fresh(chainId: string, createdAt: string): Proc {
    Proc(Booting, ChainState(0, GENESIS_HASH, chainId, createdAt, 0), [], [])
  }

  function StateLoaded(sh: Shared, pr: Proc, ok: bool): Proc {
    Proc(Loading, if ok && sh.state.Some? then sh.state.value else pr.cached, pr.cache, pr.origins)
  }

  function EntriesLoaded(sh: Shared, pr: Proc, ok: bool): Proc {
    var loaded := if ok then LoadedEntries(sh.entries, pr.cached) else [];
    var from := if |loaded| <= |sh.log| then |sh.log| - |loaded| else 0;
    Proc(Idle, pr.cached, loaded, Places(from, |loaded|))
  }

  // ---------------------------------------------------------------------------------------------
  // Steps and runs
  // ---------------------------------------------------------------------------------------------

  predicate InAttempt(pc: PC) {
    || (pc.Retrying? && pc.attempt < MAX_RETRIES)
    || pc.Watching?
    || pc.Holding?
    || pc.Queued?
  }

  predicate Enabled(sh: Shared, pc: PC, a: Action) {
    match a
    case Restart(_, _) => true
    case LoadState(_) => pc.Booting?
    case LoadEntries(_) => pc.Loading?
    case Begin(_) => pc.Idle?
    case BeginOffline(_, _) => pc.Idle?
    case Watch => pc.Retrying? && pc.attempt < MAX_RETRIES
    case Get => pc.Watching?
    case Build(_) => pc.Holding?
    case ExecConflict => pc.Queued? && pc.version != sh.version
    case ExecCommit => pc.Queued? && pc.version == sh.version
    case ExecLost => pc.Queued? && pc.version == sh.version
    case Fail => InAttempt(pc)
    case Fallback(_) => pc.Retrying? && pc.attempt >= MAX_RETRIES
  }

  /** One step of one process: what it does to Redis and to itself. */
  function Apply(c: Config, sh: Shared, pr: Proc, a: Action): (Shared, Proc)
    requires Enabled(sh, pr.pc, a)
  {
    match a
    case Restart(id, created) => (sh, Fresh(id, created))
    case LoadState(ok) => (sh, StateLoaded(sh, pr, ok))
    case LoadEntries(ok) => (sh, EntriesLoaded(sh, pr, ok))
    case Begin(ev) => (sh, At(pr, Retrying(ev, 0)))
    case BeginOffline(ev, stamp) => (sh, FellBack(c.h, pr, ev, stamp))
    case Watch => (sh, At(pr, Watching(pr.pc.ev, pr.pc.attempt, sh.version)))
    case Get => (sh, At(pr, Holding(pr.pc.ev, pr.pc.attempt, pr.pc.version, sh.state)))
    case Build(stamp) => (sh, At(pr, Prepared(c.h, pr, stamp)))
    case ExecConflict => (sh, Again(pr))
    case ExecCommit =>
      (Committed(c, sh, pr.pc.entry, pr.pc.next), Acknowledged(pr, pr.pc.entry, pr.pc.next, |sh.log|))
    case ExecLost => (Committed(c, sh, pr.pc.entry, pr.pc.next), Again(pr))
    case Fail => (sh, Again(pr))
    case Fallback(stamp) => (sh, FellBack(c.h, pr, pr.pc.ev, stamp))
  }

  /** A step that is not enabled leaves the system as it is, so every schedule denotes a run. */
  function Step(c: Config, s: System, p: nat, a: Action): System {
    if p in s.procs && Enabled(s.shared, s.procs[p].pc, a) then
      var (sh, pr) := Apply(c, s.shared, s.procs[p], a);
      System(sh, s.procs[p := pr])
    else
      s
  }

  function Run(c: Config, s: System, schedule: seq<(nat, Action)>): System
    decreases |schedule|
  {
    if schedule == [] then s
    else Run(c, Step(c, s, schedule[0].0, schedule[0].1), schedule[1..])
  }

  ghost predicate Initial(s: System) {
    && s.shared == Shared(None, 0, [], [])
    && forall p :: p in s.procs ==> s.procs[p].pc == Booting && s.procs[p].cache == [] && s.procs[p].origins == []
  }

  // ---------------------------------------------------------------------------------------------
  // The invariant
  // ---------------------------------------------------------------------------------------------

  predicate Numbered(log: seq<Entry>, i: int)
    requires 0 <= i < |log|
  {
    log[i].content.sequence == i + 1
  }

  /** Numbered 1, 2, 3, ..., correctly hashed and linked back to the genesis hash. */
  ghost predicate GenesisChain(h: Hasher, log: seq<Entry>) {
    && ChainOk(h, log)
    && (forall i {:trigger Numbered(log, i)} :: 0 <= i < |log| ==> Numbered(log, i))
    && (log != [] ==> log[0].content.previousHash == GENESIS_HASH)
  }

  ghost predicate StateMatches(state: Option<ChainState>, log: seq<Entry>) {
    match state
    case None => log == []
    case Some(st) =>
      && log != []
      && st.lastSequence == |log|
      && st.entriesCount == |log|
      && st.lastHash == log[|log| - 1].entryHash
  }

  ghost predicate SharedInv(c: Config, sh: Shared) {
    && GenesisChain(c.h, sh.log)
    && StateMatches(sh.state, sh.log)
    && AreNewest(sh.entries, sh.log, c.max)
    && sh.version == |sh.log|
  }

  /** Whatever else happens, the log only grows, an unchanged counter means unchanged keys, and the chain keeps its name. */
  ghost predicate Grows(a: Shared, b: Shared) {
    && a.log <= b.log
    && a.version <= b.version
    && (a.version == b.version ==> a == b)
    && (a.state.Some? ==> b.state.Some? && b.state.value.chainId == a.state.value.chainId
                          && b.state.value.createdAt == a.state.value.createdAt)
  }

  /** The entries that were committed are at their places in the log, and those places increase. */
  ghost predicate Sited(cache: seq<Entry>, origins: seq<Origin>, log: seq<Entry>) {
    && |cache| == |origins|
    && (forall i {:trigger origins[i]} :: 0 <= i < |origins| && origins[i].Logged? ==>
          origins[i].position < |log| && cache[i] == log[origins[i].position])
    && (forall i, j {:trigger origins[i], origins[j]} ::
          0 <= i < j < |origins| && origins[i].Logged? && origins[j].Logged? ==> origins[i].position < origins[j].position)
  }

  /** Every hash is right, and the entries of the fallback are linked to the entry cached before them. */
  ghost predicate LocalsLinked(h: Hasher, cache: seq<Entry>, origins: seq<Origin>)
    requires |cache| == |origins|
  {
    && (forall i :: 0 <= i < |cache| ==> HashOk(h, cache[i]))
    && (forall i {:trigger LinkOk(cache, i)} :: 0 < i < |cache| && origins[i].Local? ==> LinkOk(cache, i))
  }

  ghost predicate EndsAt(cache: seq<Entry>, tip: Hash) {
    cache != [] ==> cache[|cache| - 1].entryHash == tip
  }

  ghost predicate CacheInv(h: Hasher, pr: Proc, log: seq<Entry>) {
    && Sited(pr.cache, pr.origins, log)
    && LocalsLinked(h, pr.cache, pr.origins)
    && EndsAt(pr.cache, pr.cached.lastHash)
  }

  /** What a process holds is current whenever the counter it watched has not moved. */
  ghost predicate HoldsCurrent(c: Config, sh: Shared, pr: Proc) {
    match pr.pc
    case Watching(_, _, v) => v <= sh.version
    case Holding(_, _, v, snap) => v <= sh.version && (v == sh.version ==> snap == sh.state)
    case Queued(ev, _, v, e, next) =>
      && v <= sh.version
      && (v == sh.version ==>
            var base := Base(sh.state, pr.cached);
            e == MakeEntry(c.h, base, ev, e.content.timestamp) && next == NextState(base, e))
    case _ => true
  }

  ghost predicate ProcInv(c: Config, sh: Shared, pr: Proc) {
    && HoldsCurrent(c, sh, pr)
    && CacheInv(c.h, pr, sh.log)
    && (pr.pc.Booting? || pr.pc.Loading? ==> pr.cache == [] && pr.origins == [])
  }

  ghost predicate Inv(c: Config, s: System) {
    && SharedInv(c, s.shared)
    && forall p :: p in s.procs ==> ProcInv(c, s.shared, s.procs[p])
  }

  // ---------------------------------------------------------------------------------------------
  // Preservation
  // ---------------------------------------------------------------------------------------------

  lemma ExtendChain(h: Hasher, log: seq<Entry>, e: Entry)
    requires GenesisChain(h, log) && HashOk(h, e) && e.content.sequence == |log| + 1
    requires e.content.previousHash == if log == [] then GENESIS_HASH else log[|log| - 1].entryHash
    ensures GenesisChain(h, log + [e])
  {
    var log' := log + [e];
    forall i | 0 <= i < |log'|
      ensures HashOk(h, log'[i]) && (0 < i ==> LinkOk(log', i))
    {
      if i < |log| {
        assert HashOk(h, log[i]);
        assert 0 < i ==> LinkOk(log, i);
      }
    }
    forall i | 0 <= i < |log'|
      ensures Numbered(log', i)
    {
      assert i < |log| ==> Numbered(log, i);
    }
  }

  /** An entry built from the current state fits onto the log. */
  lemma EntryFits(c: Config, sh: Shared, cached: ChainState, e: Entry)
    requires GenesisChain(c.h, sh.log) && StateMatches(sh.state, sh.log)
    requires e == MakeEntry(c.h, Base(sh.state, cached), e.content.event, e.content.timestamp)
    ensures GenesisChain(c.h, sh.log + [e]) && e.content.sequence == |sh.log| + 1
    ensures StateMatches(Some(NextState(Base(sh.state, cached), e)), sh.log + [e])
  {
    assert HashOk(c.h, e);
    ExtendChain(c.h, sh.log, e);
  }

  /** Committing an entry built from the current state extends the chain. */
  lemma CommitExtendsChain(c: Config, sh: Shared, cached: ChainState, e: Entry)
    requires SharedInv(c, sh)
    requires e == MakeEntry(c.h, Base(sh.state, cached), e.content.event, e.content.timestamp)
    ensures var sh' := Committed(c, sh, e, NextState(Base(sh.state, cached), e));
            SharedInv(c, sh') && Grows(sh, sh')
  {
    CommitKeepsShared(c, sh, cached, e);
  }

  lemma CommitKeepsShared(c: Config, sh: Shared, cached: ChainState, e: Entry)
    requires SharedInv(c, sh)
    requires e == MakeEntry(c.h, Base(sh.state, cached), e.content.event, e.content.timestamp)
    ensures SharedInv(c, Committed(c, sh, e, NextState(Base(sh.state, cached), e)))
  {
    var next := NextState(Base(sh.state, cached), e);
    EntryFits(c, sh, cached, e);
    NumbersBelow(c.h, sh.log);
    AreNewestIff(sh.entries, sh.log, c.max);
    CommittedParts(c, sh, e, next);
    InvFromParts(c, Committed(c, sh, e, next));
  }

  lemma NumbersBelow(h: Hasher, log: seq<Entry>)
    requires GenesisChain(h, log)
    ensures forall i :: 0 <= i < |log| ==> log[i].content.sequence < |log| + 1
  {
    forall i | 0 <= i < |log|
      ensures log[i].content.sequence < |log| + 1
    {
      assert Numbered(log, i);
    }
  }

  lemma CommittedParts(c: Config, sh: Shared, e: Entry, next: ChainState)
    requires sh.entries == Newest(sh.log, c.max)
    requires forall i :: 0 <= i < |sh.log| ==> sh.log[i].content.sequence < e.content.sequence
    ensures var sh' := Committed(c, sh, e, next);
            && sh'.log == sh.log + [e]
            && sh'.state == Some(next)
            && sh'.version == sh.version + 1
            && sh'.entries == Newest(sh'.log, c.max)
  {
    TrimKeepsNewest(sh.log, e, c.max);
  }

  lemma InvFromParts(c: Config, sh: Shared)
    requires GenesisChain(c.h, sh.log) && StateMatches(sh.state, sh.log)
    requires sh.entries == Newest(sh.log, c.max) && sh.version == |sh.log|
    ensures SharedInv(c, sh)
  {
    AreNewestIff(sh.entries, sh.log, c.max);
  }

  lemma SitedStable(cache: seq<Entry>, origins: seq<Origin>, log: seq<Entry>, log': seq<Entry>)
    requires Sited(cache, origins, log) && log <= log'
    ensures Sited(cache, origins, log')
  {
  }

  /** A process that takes no step keeps its invariant while others move the shared state. */
  lemma OthersStable(c: Config, sh: Shared, sh': Shared, pr: Proc)
    requires Grows(sh, sh') && ProcInv(c, sh, pr)
    ensures ProcInv(c, sh', pr)
  {
    SitedStable(pr.cache, pr.origins, sh.log, sh'.log);
  }

  lemma StepShared(c: Config, sh: Shared, pr: Proc, a: Action)
    requires SharedInv(c, sh) && ProcInv(c, sh, pr) && Enabled(sh, pr.pc, a)
    ensures SharedInv(c, Apply(c, sh, pr, a).0) && Grows(sh, Apply(c, sh, pr, a).0)
  {
    if a.ExecCommit? || a.ExecLost? {
      CommitExtendsChain(c, sh, pr.cached, pr.pc.entry);
    }
  }

  lemma SitedSuffix(cache: seq<Entry>, origins: seq<Origin>, log: seq<Entry>)
    requires Sited(cache, origins, log)
    ensures Sited(LastN(cache, CACHE_LIMIT), LastN(origins, CACHE_LIMIT), log)
  {
    if |cache| > CACHE_LIMIT {
      SitedRest(cache, origins, log, |cache| - CACHE_LIMIT);
    }
  }

  lemma SitedRest(cache: seq<Entry>, origins: seq<Origin>, log: seq<Entry>, d: nat)
    requires Sited(cache, origins, log) && d <= |cache|
    ensures Sited(cache[d..], origins[d..], log)
  {
    var origins' := origins[d..];
    assert forall i {:trigger origins'[i]} :: 0 <= i < |origins'| ==> origins'[i] == origins[d + i];
  }

  /** The origin of an entry that goes into the cache: the end of the log if it is committed there. */
  lemma SitedMore(cache: seq<Entry>, origins: seq<Origin>, log: seq<Entry>, e: Entry)
    requires Sited(cache, origins, log)
    ensures Sited(Remember(cache, e), Remember(origins, Local), log)
    ensures Sited(Remember(cache, e), Remember(origins, Logged(|log|)), log + [e])
  {
    SitedStable(cache, origins, log, log + [e]);
    assert Sited(cache + [e], origins + [Local], log);
    assert Sited(cache + [e], origins + [Logged(|log|)], log + [e]);
    SitedSuffix(cache + [e], origins + [Local], log);
    SitedSuffix(cache + [e], origins + [Logged(|log|)], log + [e]);
  }

  lemma LinkedSuffix(h: Hasher, cache: seq<Entry>, origins: seq<Origin>)
    requires |cache| == |origins| && LocalsLinked(h, cache, origins)
    ensures LocalsLinked(h, LastN(cache, CACHE_LIMIT), LastN(origins, CACHE_LIMIT))
  {
    var cache', origins' := LastN(cache, CACHE_LIMIT), LastN(origins, CACHE_LIMIT);
    var dropped := |cache| - |cache'|;
    forall i | 0 < i < |cache'| && origins'[i].Local?
      ensures LinkOk(cache', i)
    {
      assert LinkOk(cache, dropped + i);
    }
  }

  lemma LinkedMore(h: Hasher, cache: seq<Entry>, origins: seq<Origin>, e: Entry, o: Origin)
    requires |cache| == |origins| && LocalsLinked(h, cache, origins) && HashOk(h, e)
    requires o.Local? && cache != [] ==> e.content.previousHash == cache[|cache| - 1].entryHash
    ensures LocalsLinked(h, Remember(cache, e), Remember(origins, o))
  {
    forall i | 0 < i < |cache + [e]| && (origins + [o])[i].Local?
      ensures LinkOk(cache + [e], i)
    {
      assert i < |cache| ==> LinkOk(cache, i);
    }
    LinkedSuffix(h, cache + [e], origins + [o]);
  }

  lemma RememberEnds<T>(cache: seq<T>, x: T)
    ensures Remember(cache, x) != [] && Remember(cache, x)[|Remember(cache, x)| - 1] == x
  {
  }

  lemma AcknowledgedCache(h: Hasher, pr: Proc, log: seq<Entry>, e: Entry, next: ChainState)
    requires CacheInv(h, pr, log) && HashOk(h, e) && next.lastHash == e.entryHash
    ensures CacheInv(h, Acknowledged(pr, e, next, |log|), log + [e])
  {
    SitedMore(pr.cache, pr.origins, log, e);
    LinkedMore(h, pr.cache, pr.origins, e, Logged(|log|));
    RememberEnds(pr.cache, e);
  }

  lemma FallbackCache(h: Hasher, pr: Proc, log: seq<Entry>, ev: Event, stamp: string)
    requires CacheInv(h, pr, log)
    ensures CacheInv(h, FellBack(h, pr, ev, stamp), log)
  {
    var e := MakeEntry(h, pr.cached, ev, stamp);
    SitedMore(pr.cache, pr.origins, log, e);
    LinkedMore(h, pr.cache, pr.origins, e, Local);
    RememberEnds(pr.cache, e);
  }

  lemma SuffixSited(log: seq<Entry>, tail: seq<Entry>)
    requires AreNewest(tail, log, |tail|)
    ensures Sited(tail, Places(|log| - |tail|, |tail|), log)
  {
  }

  /** What start-up leaves in the cache: a last piece of the log, each entry with its place. */
  lemma EntriesLoadedParts(c: Config, sh: Shared, pr: Proc, ok: bool)
    requires AreNewest(sh.entries, sh.log, c.max)
    ensures var pr' := EntriesLoaded(sh, pr, ok); var n := |pr'.cache|;
            && n <= |sh.log|
            && AreNewest(pr'.cache, sh.log, n)
            && pr'.origins == Places(|sh.log| - n, n)
            && EndsAt(pr'.cache, pr'.cached.lastHash)
  {
  }

  lemma LoadedCache(c: Config, sh: Shared, pr: Proc, ok: bool)
    requires SharedInv(c, sh)
    ensures CacheInv(c.h, EntriesLoaded(sh, pr, ok), sh.log)
  {
    var pr' := EntriesLoaded(sh, pr, ok);
    EntriesLoadedParts(c, sh, pr, ok);
    SuffixSited(sh.log, pr'.cache);
    SuffixLinked(c.h, sh.log, pr'.cache);
  }

  lemma SuffixLinked(h: Hasher, log: seq<Entry>, tail: seq<Entry>)
    requires ChainOk(h, log) && AreNewest(tail, log, |tail|)
    ensures LocalsLinked(h, tail, Places(|log| - |tail|, |tail|))
  {
    forall i | 0 <= i < |tail|
      ensures HashOk(h, tail[i])
    {
      assert HashOk(h, log[|log| - |tail| + i]);
    }
  }

  lemma StepProc(c: Config, sh: Shared, pr: Proc, a: Action)
    requires SharedInv(c, sh) && ProcInv(c, sh, pr) && Enabled(sh, pr.pc, a)
    ensures ProcInv(c, Apply(c, sh, pr, a).0, Apply(c, sh, pr, a).1)
  {
    match a
    case ExecCommit =>
      AcknowledgedCache(c.h, pr, sh.log, pr.pc.entry, pr.pc.next);
    case ExecLost =>
      StepShared(c, sh, pr, a);
      OthersStable(c, sh, Apply(c, sh, pr, a).0, pr);
    case LoadEntries(ok) =>
      LoadedCache(c, sh, pr, ok);
    case BeginOffline(ev, stamp) =>
      FallbackCache(c.h, pr, sh.log, ev, stamp);
    case Fallback(stamp) =>
      FallbackCache(c.h, pr, sh.log, pr.pc.ev, stamp);
    case _ =>
  }

  lemma StepKeepsInv(c: Config, s: System, p: nat, a: Action)
    requires Inv(c, s)
    ensures Inv(c, Step(c, s, p, a)) && Grows(s.shared, Step(c, s, p, a).shared)
  {
    if p in s.procs && Enabled(s.shared, s.procs[p].pc, a) {
      StepShared(c, s.shared, s.procs[p], a);
      StepProc(c, s.shared, s.procs[p], a);
      var (sh, pr) := Apply(c, s.shared, s.procs[p], a);
      UpdateKeepsInv(c, s, p, sh, pr);
    }
  }

  lemma UpdateKeepsInv(c: Config, s: System, p: nat, sh: Shared, pr: Proc)
    requires Inv(c, s) && p in s.procs && SharedInv(c, sh) && Grows(s.shared, sh) && ProcInv(c, sh, pr)
    ensures Inv(c, System(sh, s.procs[p := pr]))
  {
    forall q | q in s.procs && q != p
      ensures ProcInv(c, sh, s.procs[q])
    {
      OthersStable(c, s.shared, sh, s.procs[q]);
    }
  }

  lemma {:induction false} RunKeepsInv(c: Config, s: System, schedule: seq<(nat, Action)>)
    requires Inv(c, s)
    ensures Inv(c, Run(c, s, schedule)) && Grows(s.shared, Run(c, s, schedule).shared)
    decreases |schedule|
  {
    if schedule != [] {
      StepKeepsInv(c, s, schedule[0].0, schedule[0].1);
      RunKeepsInv(c, Step(c, s, schedule[0].0, schedule[0].1), schedule[1..]);
    }
  }

  // ---------------------------------------------------------------------------------------------
  // Main results over all runs
  // ---------------------------------------------------------------------------------------------

  /**
   * Every interleaving, with conflicts, lost replies, failures, fallbacks and restarts: the shared log is one
   * chain from genesis numbered without gaps, the saved state describes its tip, Redis holds exactly its newest
   * entries, and nothing committed earlier in the run (`before`) is lost or rewritten later (`after`).
   */
  lemma SharedLogIsSound(c: Config, s: System, before: seq<(nat, Action)>, after: seq<(nat, Action)>)
    requires Initial(s)
    ensures SharedInv(c, Run(c, s, before).shared)
    ensures Run(c, s, before + after) == Run(c, Run(c, s, before), after)
    ensures Run(c, s, before).shared.log <= Run(c, s, before + after).shared.log
    ensures forall i, j :: 0 <= i < j < |Run(c, s, before).shared.log| ==>
              Run(c, s, before).shared.log[i].content.sequence < Run(c, s, before).shared.log[j].content.sequence
  {
    RunKeepsInv(c, s, before);
    RunAppend(c, s, before, after);
    RunKeepsInv(c, Run(c, s, before), after);
    NumbersIncrease(c.h, Run(c, s, before).shared.log);
  }

  lemma NumbersIncrease(h: Hasher, log: seq<Entry>)
    requires GenesisChain(h, log)
    ensures forall i, j :: 0 <= i < j < |log| ==> log[i].content.sequence < log[j].content.sequence
  {
    forall i, j | 0 <= i < j < |log|
      ensures log[i].content.sequence < log[j].content.sequence
    {
      assert Numbered(log, i) && Numbered(log, j);
    }
  }

  lemma {:induction false} RunAppend(c: Config, s: System, a: seq<(nat, Action)>, b: seq<(nat, Action)>)
    ensures Run(c, s, a + b) == Run(c, Run(c, s, a), b)
    decreases |a|
  {
    if a == [] {
      assert a + b == b;
    } else {
      assert (a + b)[1..] == a[1..] + b;
      RunAppend(c, Step(c, s, a[0].0, a[0].1), a[1..], b);
    }
  }
}
