/**
 * What verifying a process's own cache says (core/audit.py: `verify_chain`, `_load_chain_entries`): after any run the
 * breaks are exactly the committed entries that do not follow their predecessor in the log.
 */
module AuditCaches {
  import opened Common
  import opened AuditChain
  import opened AuditProtocol

  // ---------------------------------------------------------------------------------------------
  // Any cache, with entries of the fallback among the committed ones
  // ---------------------------------------------------------------------------------------------

  /** The entry at position `i` was committed, but not right after the entry that is cached before it. */
  predicate Misplaced(log: seq<Entry>, cache: seq<Entry>, origins: seq<Origin>, i: int)
    requires 0 < i < |cache| == |origins|
  {
    match origins[i]
    case Local => false
    case Logged(p) => !(0 < p <= |log| && log[p - 1] == cache[i - 1])
  }

  function MisplacedAt(log: seq<Entry>, cache: seq<Entry>, origins: seq<Origin>, i: nat): seq<Break>
    requires i < |cache| == |origins|
  {
    if 0 < i && Misplaced(log, cache, origins, i) then
      [ChainBreak(cache[i].content.sequence, cache[i - 1].entryHash, cache[i].content.previousHash)]
    else
      []
  }

  /** The chain breaks that the misplaced entries among the first `n` cause, in order. */
  function MisplacedBreaks(log: seq<Entry>, cache: seq<Entry>, origins: seq<Origin>, n: nat): seq<Break>
    requires n <= |cache| == |origins|
  {
    if n == 0 then []
    else MisplacedBreaks(log, cache, origins, n - 1) + MisplacedAt(log, cache, origins, n - 1)
  }

  ghost predicate AvoidsGenesis(h: Hasher, cache: seq<Entry>) {
    forall i :: 0 <= i < |cache| ==> h(cache[i].content) != GENESIS_HASH
  }

  lemma LinkIsPlace(h: Hasher, log: seq<Entry>, cache: seq<Entry>, origins: seq<Origin>, i: int)
    requires GenesisChain(h, log) && Sited(cache, origins, log) && LocalsLinked(h, cache, origins)
    requires !CollisionBetween(h, log, cache) && AvoidsGenesis(h, cache)
    requires 0 < i < |cache|
    ensures LinkOk(cache, i) <==> !Misplaced(log, cache, origins, i)
  {
    assert HashOk(h, cache[i - 1]);
    match origins[i]
    case Local =>
      assert LinkOk(cache, i);
    case Logged(p) =>
      assert p < |log| && cache[i] == log[p];
      if p > 0 {
        LogLinks(h, log, p);
        SameHashSameEntry(h, log, cache, p - 1, i - 1);
      }
  }

  lemma LogLinks(h: Hasher, log: seq<Entry>, p: nat)
    requires GenesisChain(h, log) && 0 < p < |log|
    ensures HashOk(h, log[p - 1]) && log[p].content.previousHash == log[p - 1].entryHash
  {
    assert LinkOk(log, p);
  }

  lemma SameHashSameEntry(h: Hasher, a: seq<Entry>, b: seq<Entry>, i: nat, j: nat)
    requires !CollisionBetween(h, a, b) && i < |a| && j < |b| && HashOk(h, a[i]) && HashOk(h, b[j])
    ensures a[i].entryHash == b[j].entryHash <==> a[i] == b[j]
  {
    assert !Collides(h, a[i].content, b[j].content);
  }

  lemma BreakIsMisplaced(h: Hasher, log: seq<Entry>, cache: seq<Entry>, origins: seq<Origin>, i: nat)
    requires GenesisChain(h, log) && Sited(cache, origins, log) && LocalsLinked(h, cache, origins)
    requires !CollisionBetween(h, log, cache) && AvoidsGenesis(h, cache)
    requires i < |cache|
    ensures BreakAt(h, cache, i) == MisplacedAt(log, cache, origins, i)
  {
    assert HashOk(h, cache[i]);
    if 0 < i {
      LinkIsPlace(h, log, cache, origins, i);
    }
  }

  lemma {:induction false} MisplacedUpTo(h: Hasher, log: seq<Entry>, cache: seq<Entry>, origins: seq<Origin>, n: nat)
    requires n <= |cache| == |origins|
    requires forall i: nat :: i < |cache| ==> BreakAt(h, cache, i) == MisplacedAt(log, cache, origins, i)
    ensures BreaksUpTo(h, cache, n) == MisplacedBreaks(log, cache, origins, n)
  {
    if n > 0 {
      MisplacedUpTo(h, log, cache, origins, n - 1);
    }
  }

  /**
   * In every run, with fallbacks, lost replies, conflicts and restarts: verifying the cache of a process reports
   * exactly the committed entries whose predecessor in the log is not the entry cached before them, in order, and so
   * succeeds exactly when there is none. Entries of the fallback are never reported themselves.
   */
  lemma CacheVerdictIsExact(c: Config, s: System, schedule: seq<(nat, Action)>, p: nat)
    requires Initial(s) && p in Run(c, s, schedule).procs
    requires var sys := Run(c, s, schedule); !CollisionBetween(c.h, sys.shared.log, sys.procs[p].cache)
    requires AvoidsGenesis(c.h, Run(c, s, schedule).procs[p].cache)
    ensures var sys := Run(c, s, schedule); var pr := sys.procs[p];
            && Sited(pr.cache, pr.origins, sys.shared.log)
            && Breaks(c.h, pr.cache) == MisplacedBreaks(sys.shared.log, pr.cache, pr.origins, |pr.cache|)
            && (Breaks(c.h, pr.cache) == [] <==>
                  forall i :: 0 < i < |pr.cache| ==> !Misplaced(sys.shared.log, pr.cache, pr.origins, i))
  {
    RunKeepsInv(c, s, schedule);
    var sys := Run(c, s, schedule);
    VerdictIsExact(c.h, sys.shared.log, sys.procs[p].cache, sys.procs[p].origins);
  }

  lemma VerdictIsExact(h: Hasher, log: seq<Entry>, cache: seq<Entry>, origins: seq<Origin>)
    requires GenesisChain(h, log) && Sited(cache, origins, log) && LocalsLinked(h, cache, origins)
    requires !CollisionBetween(h, log, cache) && AvoidsGenesis(h, cache)
    ensures Breaks(h, cache) == MisplacedBreaks(log, cache, origins, |cache|)
    ensures Breaks(h, cache) == [] <==> forall i :: 0 < i < |cache| ==> !Misplaced(log, cache, origins, i)
  {
    forall i: nat | i < |cache|
      ensures BreakAt(h, cache, i) == MisplacedAt(log, cache, origins, i)
    {
      BreakIsMisplaced(h, log, cache, origins, i);
    }
    MisplacedUpTo(h, log, cache, origins, |cache|);
    BreaksEmptyIffChainOk(h, cache);
    forall i | 0 < i < |cache|
      ensures LinkOk(cache, i) <==> !Misplaced(log, cache, origins, i)
    {
      LinkIsPlace(h, log, cache, origins, i);
    }
  }

  // ---------------------------------------------------------------------------------------------
  // Caches without entries of the fallback
  // ---------------------------------------------------------------------------------------------

  function Spot(o: Origin): nat {
    if o.Logged? then o.position else 0
  }

  /** The log positions of the cached entries. */
  function Spots(origins: seq<Origin>): seq<nat> {
    seq(|origins|, i requires 0 <= i < |origins| => Spot(origins[i]))
  }

  /** The cached entries sit in the log at strictly increasing positions. */
  ghost predicate CacheAt(cache: seq<Entry>, at: seq<nat>, log: seq<Entry>) {
    && |cache| == |at|
    && (forall i {:trigger at[i]} :: 0 <= i < |at| ==> at[i] < |log| && cache[i] == log[at[i]])
    && (forall i, j :: 0 <= i < j < |at| ==> at[i] < at[j])
  }

  lemma SitedAtSpots(cache: seq<Entry>, origins: seq<Origin>, log: seq<Entry>)
    requires Sited(cache, origins, log) && Local !in origins
    ensures CacheAt(cache, Spots(origins), log)
  {
    var at := Spots(origins);
    assert forall i {:trigger at[i]} :: 0 <= i < |at| ==> origins[i].Logged? && at[i] == origins[i].position;
  }

  predicate Follows(at: seq<nat>, i: int)
    requires 0 < i < |at|
  {
    at[i] == at[i - 1] + 1
  }

  ghost predicate Consecutive(at: seq<nat>) {
    forall i :: 0 < i < |at| ==> Follows(at, i)
  }

  /** The chain breaks that the missing positions of `at` would cause, in order. */
  function GapBreaks(log: seq<Entry>, at: seq<nat>, n: nat): seq<Break>
    requires n <= |at| && forall i :: 0 <= i < |at| ==> at[i] < |log|
  {
    if n == 0 then []
    else GapBreaks(log, at, n - 1) + GapAt(log, at, n - 1)
  }

  function GapAt(log: seq<Entry>, at: seq<nat>, i: nat): seq<Break>
    requires i < |at| && forall k :: 0 <= k < |at| ==> at[k] < |log|
  {
    if 0 < i && !Follows(at, i) then
      [ChainBreak(log[at[i]].content.sequence, log[at[i - 1]].entryHash, log[at[i]].content.previousHash)]
    else
      []
  }

  lemma LinkIsStep(h: Hasher, log: seq<Entry>, here: nat, there: nat)
    requires GenesisChain(h, log) && !CollisionBetween(h, log, log) && there < here < |log|
    ensures log[here].content.previousHash == log[there].entryHash <==> here == there + 1
  {
    LogLinks(h, log, here);
    assert HashOk(h, log[there]) && Numbered(log, here - 1) && Numbered(log, there);
    SameHashSameEntry(h, log, log, here - 1, there);
  }

  lemma BreakIsGap(h: Hasher, cache: seq<Entry>, at: seq<nat>, log: seq<Entry>, i: nat)
    requires GenesisChain(h, log) && !CollisionBetween(h, log, log) && CacheAt(cache, at, log) && i < |at|
    ensures BreakAt(h, cache, i) == GapAt(log, at, i)
  {
    assert cache[i] == log[at[i]] && HashOk(h, log[at[i]]);
    if 0 < i {
      assert cache[i - 1] == log[at[i - 1]] && at[i - 1] < at[i];
      LinkIsStep(h, log, at[i], at[i - 1]);
    }
  }

  lemma {:induction false} GapsUpTo(h: Hasher, cache: seq<Entry>, at: seq<nat>, log: seq<Entry>, n: nat)
    requires |cache| == |at| && n <= |at| && forall i :: 0 <= i < |at| ==> at[i] < |log|
    requires forall i: nat :: i < |at| ==> BreakAt(h, cache, i) == GapAt(log, at, i)
    ensures BreaksUpTo(h, cache, n) == GapBreaks(log, at, n)
  {
    if n > 0 {
      GapsUpTo(h, cache, at, log, n - 1);
    }
  }

  lemma {:induction false} ConsecutiveHasNoGap(log: seq<Entry>, at: seq<nat>, n: nat)
    requires n <= |at| && (forall i :: 0 <= i < |at| ==> at[i] < |log|) && Consecutive(at)
    ensures GapBreaks(log, at, n) == []
  {
    if n > 0 {
      ConsecutiveHasNoGap(log, at, n - 1);
    }
  }

  lemma {:induction false} NoGapFollows(log: seq<Entry>, at: seq<nat>, n: nat, i: nat)
    requires n <= |at| && (forall k :: 0 <= k < |at| ==> at[k] < |log|)
    requires 0 < i < n && GapBreaks(log, at, n) == []
    ensures Follows(at, i)
  {
    ConcatEmpty(GapBreaks(log, at, n - 1), GapAt(log, at, n - 1));
    if i < n - 1 {
      NoGapFollows(log, at, n - 1, i);
    }
  }

  lemma BreaksAreGaps(h: Hasher, cache: seq<Entry>, at: seq<nat>, log: seq<Entry>)
    requires GenesisChain(h, log) && !CollisionBetween(h, log, log) && CacheAt(cache, at, log)
    ensures Breaks(h, cache) == GapBreaks(log, at, |at|)
    ensures Breaks(h, cache) == [] <==> Consecutive(at)
  {
    forall i: nat | i < |at|
      ensures BreakAt(h, cache, i) == GapAt(log, at, i)
    {
      BreakIsGap(h, cache, at, log, i);
    }
    GapsUpTo(h, cache, at, log, |at|);
    if Breaks(h, cache) == [] {
      forall i | 0 < i < |at|
        ensures Follows(at, i)
      {
        NoGapFollows(log, at, |at|, i);
      }
    }
    if Consecutive(at) {
      ConsecutiveHasNoGap(log, at, |at|);
    }
  }

  /**
   * In every run, a cache without entries of the fallback is a subsequence of the commit order; verifying it reports
   * exactly the gaps, in order, and so succeeds exactly when the cached commits are consecutive.
   */
  lemma CacheVerdictIsGaps(c: Config, s: System, schedule: seq<(nat, Action)>, p: nat)
    requires Initial(s)
    requires p in Run(c, s, schedule).procs && Local !in Run(c, s, schedule).procs[p].origins
    requires !CollisionBetween(c.h, Run(c, s, schedule).shared.log, Run(c, s, schedule).shared.log)
    ensures var sys := Run(c, s, schedule); var pr := sys.procs[p];
            && CacheAt(pr.cache, Spots(pr.origins), sys.shared.log)
            && Breaks(c.h, pr.cache) == GapBreaks(sys.shared.log, Spots(pr.origins), |pr.origins|)
            && (Breaks(c.h, pr.cache) == [] <==> Consecutive(Spots(pr.origins)))
  {
    RunKeepsInv(c, s, schedule);
    var sys := Run(c, s, schedule);
    var pr := sys.procs[p];
    SitedAtSpots(pr.cache, pr.origins, sys.shared.log);
    BreaksAreGaps(c.h, pr.cache, Spots(pr.origins), sys.shared.log);
  }

  // ---------------------------------------------------------------------------------------------
  // Restarts and the sole writer
  // ---------------------------------------------------------------------------------------------

  /** The cache is an unbroken piece of the log that reaches its end. */
  ghost predicate Tied(sh: Shared, pr: Proc) {
    && Local !in pr.origins
    && CacheAt(pr.cache, Spots(pr.origins), sh.log)
    && Consecutive(Spots(pr.origins))
    && var at := Spots(pr.origins);
       (at != [] ==> at[|at| - 1] == |sh.log| - 1 && pr.cached.lastHash == sh.log[|sh.log| - 1].entryHash)
  }

  lemma LoadedIsTied(c: Config, sh: Shared, pr: Proc, ok: bool)
    requires AreNewest(sh.entries, sh.log, c.max)
    ensures Tied(sh, EntriesLoaded(sh, pr, ok))
  {
    EntriesLoadedParts(c, sh, pr, ok);
    SuffixIsTied(sh.log, EntriesLoaded(sh, pr, ok).cache);
  }

  lemma SuffixIsTied(log: seq<Entry>, tail: seq<Entry>)
    requires AreNewest(tail, log, |tail|)
    ensures var origins := Places(|log| - |tail|, |tail|); var at := Spots(origins);
            && Local !in origins && CacheAt(tail, at, log) && Consecutive(at)
            && (at != [] ==> at[|at| - 1] == |log| - 1 && tail[|tail| - 1] == log[|log| - 1])
  {
    PlacesAreConsecutive(|log| - |tail|, |tail|);
    SuffixSited(log, tail);
    SitedAtSpots(tail, Places(|log| - |tail|, |tail|), log);
  }

  lemma PlacesAreConsecutive(from: nat, n: nat)
    ensures Local !in Places(from, n) && Consecutive(Spots(Places(from, n)))
    ensures n > 0 ==> Places(from, n)[n - 1] == Logged(from + n - 1)
  {
  }

  lemma TiedVerifies(c: Config, sh: Shared, pr: Proc)
    requires SharedInv(c, sh) && Tied(sh, pr)
    ensures Breaks(c.h, pr.cache) == []
  {
    PieceVerifies(c.h, pr.cache, Spots(pr.origins), sh.log);
    BreaksEmptyIffChainOk(c.h, pr.cache);
  }

  /** An unbroken piece of a chain is a chain. */
  lemma PieceVerifies(h: Hasher, cache: seq<Entry>, at: seq<nat>, log: seq<Entry>)
    requires ChainOk(h, log) && CacheAt(cache, at, log) && Consecutive(at)
    ensures ChainOk(h, cache)
  {
    forall i | 0 <= i < |cache|
      ensures HashOk(h, cache[i]) && (0 < i ==> LinkOk(cache, i))
    {
      assert cache[i] == log[at[i]] && HashOk(h, log[at[i]]);
      if 0 < i {
        assert Follows(at, i) && cache[i - 1] == log[at[i - 1]];
        assert LinkOk(log, at[i]);
      }
    }
  }

  lemma FinishedLoading(c: Config, s: System, p: nat, ok: bool)
    requires Inv(c, s) && p in s.procs && s.procs[p].pc == Loading
    ensures var s' := Step(c, s, p, LoadEntries(ok));
            s'.shared == s.shared && p in s'.procs && s'.procs[p] == EntriesLoaded(s.shared, s.procs[p], ok)
  {
  }

  /**
   * In every run, whatever the others commit between reading the state and reading the entries, start-up ends
   * with no entries or with a chain that verifies, ends at the cached tip hash and ends where the log ends.
   */
  lemma RestartLoadsChain(c: Config, s: System, schedule: seq<(nat, Action)>, p: nat, ok: bool)
    requires Initial(s)
    requires p in Run(c, s, schedule).procs && Run(c, s, schedule).procs[p].pc == Loading
    ensures var sys := Step(c, Run(c, s, schedule), p, LoadEntries(ok));
            && p in sys.procs
            && Tied(sys.shared, sys.procs[p])
            && Breaks(c.h, sys.procs[p].cache) == []
  {
    RunKeepsInv(c, s, schedule);
    var sys := Run(c, s, schedule);
    FinishedLoading(c, sys, p, ok);
    LoadedIsTied(c, sys.shared, sys.procs[p], ok);
    TiedVerifies(c, sys.shared, EntriesLoaded(sys.shared, sys.procs[p], ok));
  }

  /** The steps of a start-up whose reads work and between which no one commits. */
  function Startup(p: nat, chainId: string, createdAt: string): seq<(nat, Action)> {
    [(p, Restart(chainId, createdAt)), (p, LoadState(true)), (p, LoadEntries(true))]
  }

  /** After any run such a start-up ends with exactly the stored state and the stored entries, and they verify. */
  lemma StartupLoadsAll(c: Config, s: System, schedule: seq<(nat, Action)>, p: nat, chainId: string, createdAt: string)
    requires Initial(s) && p in Run(c, s, schedule).procs
    ensures var sh := Run(c, s, schedule).shared;
            var sys := Run(c, s, schedule + Startup(p, chainId, createdAt));
            && sys.shared == sh
            && p in sys.procs
            && sys.procs[p].pc == Idle
            && sys.procs[p].cache == sh.entries
            && sys.procs[p].cached == (if sh.state.Some? then sh.state.value
                                       else ChainState(0, GENESIS_HASH, chainId, createdAt, 0))
            && Breaks(c.h, sh.entries) == []
  {
    RunKeepsInv(c, s, schedule);
    RunAppend(c, s, schedule, Startup(p, chainId, createdAt));
    var sys := Run(c, s, schedule);
    var loading := StateLoaded(sys.shared, Fresh(chainId, createdAt), true);
    StartupRun(c, sys, p, chainId, createdAt);
    StoredIsLoaded(c, sys.shared, loading);
    LoadedIsTied(c, sys.shared, loading, true);
    TiedVerifies(c, sys.shared, EntriesLoaded(sys.shared, loading, true));
  }

  lemma StartupRun(c: Config, s: System, p: nat, chainId: string, createdAt: string)
    requires p in s.procs
    ensures var loading := StateLoaded(s.shared, Fresh(chainId, createdAt), true);
            var s' := Run(c, s, Startup(p, chainId, createdAt));
            s'.shared == s.shared && p in s'.procs && s'.procs[p] == EntriesLoaded(s.shared, loading, true)
  {
    ThreeSteps(c, s, (p, Restart(chainId, createdAt)), (p, LoadState(true)), (p, LoadEntries(true)));
    var s1 := Step(c, s, p, Restart(chainId, createdAt));
    assert s1.procs[p] == Fresh(chainId, createdAt);
    var s2 := Step(c, s1, p, LoadState(true));
    assert s2.procs[p] == StateLoaded(s.shared, s1.procs[p], true);
  }

  lemma ThreeSteps(c: Config, s: System, x: (nat, Action), y: (nat, Action), z: (nat, Action))
    ensures Run(c, s, [x, y, z]) == Step(c, Step(c, Step(c, s, x.0, x.1), y.0, y.1), z.0, z.1)
  {
    var s1 := Step(c, s, x.0, x.1);
    var s2 := Step(c, s1, y.0, y.1);
    assert [x, y, z][1..] == [y, z] && [y, z][1..] == [z] && [z][1..] == [];
    assert Run(c, s, [x, y, z]) == Run(c, s1, [y, z]);
    assert Run(c, s1, [y, z]) == Run(c, s2, [z]);
    assert Run(c, s2, [z]) == Run(c, Step(c, s2, z.0, z.1), []);
  }

  /** The stored entries end at the hash of the stored state, so none are discarded. */
  lemma StoredIsLoaded(c: Config, sh: Shared, pr: Proc)
    requires SharedInv(c, sh) && (sh.state.Some? ==> pr.cached == sh.state.value)
    ensures EntriesLoaded(sh, pr, true).cache == sh.entries
  {
  }

  /** A step that leaves `p` the only writer with working replies: no one else commits, and `p` neither loses a reply nor falls back. */
  predicate SoleWriterStep(p: nat, step: (nat, Action)) {
    if step.0 == p then !step.1.ExecLost? && !step.1.Fallback? && !step.1.BeginOffline?
    else !step.1.ExecCommit? && !step.1.ExecLost?
  }

  lemma AcknowledgedIsTied(sh: Shared, sh': Shared, pr: Proc, e: Entry, next: ChainState)
    requires Tied(sh, pr) && sh'.log == sh.log + [e] && next.lastHash == e.entryHash
    ensures Tied(sh', Acknowledged(pr, e, next, |sh.log|))
  {
    var n := |sh.log|;
    SitedFromSpots(pr.cache, pr.origins, sh.log);
    SitedMore(pr.cache, pr.origins, sh.log, e);
    SpotsRemember(pr.origins, n);
    SitedAtSpots(Remember(pr.cache, e), Remember(pr.origins, Logged(n)), sh'.log);
    RememberNext(Spots(pr.origins), n);
    RememberEnds(pr.origins, Logged(n));
  }

  lemma SitedFromSpots(cache: seq<Entry>, origins: seq<Origin>, log: seq<Entry>)
    requires CacheAt(cache, Spots(origins), log) && Local !in origins
    ensures Sited(cache, origins, log)
  {
    var at := Spots(origins);
    assert forall i {:trigger origins[i]} :: 0 <= i < |origins| ==> origins[i] == Logged(at[i]);
  }

  lemma SpotsRemember(origins: seq<Origin>, n: nat)
    requires Local !in origins
    ensures Local !in Remember(origins, Logged(n))
    ensures Spots(Remember(origins, Logged(n))) == Remember(Spots(origins), n)
  {
  }

  lemma RememberNext(at: seq<nat>, n: nat)
    requires Consecutive(at) && (at != [] ==> at[|at| - 1] == n - 1)
    ensures var at' := Remember(at, n); at' != [] && at'[|at'| - 1] == n && Consecutive(at')
  {
    var all, at' := at + [n], Remember(at, n);
    var dropped := |all| - |at'|;
    forall i | 0 < i < |at'|
      ensures Follows(at', i)
    {
      assert at'[i] == all[dropped + i] && at'[i - 1] == all[dropped + i - 1];
      assert dropped + i < |at| ==> Follows(at, dropped + i);
    }
  }

  lemma OwnStepKeepsTied(c: Config, sh: Shared, pr: Proc, a: Action)
    requires SharedInv(c, sh) && ProcInv(c, sh, pr) && Enabled(sh, pr.pc, a) && Tied(sh, pr)
    requires !a.ExecLost? && !a.Fallback? && !a.BeginOffline?
    ensures Tied(Apply(c, sh, pr, a).0, Apply(c, sh, pr, a).1)
  {
    match a
    case ExecCommit =>
      AcknowledgedIsTied(sh, Apply(c, sh, pr, a).0, pr, pr.pc.entry, pr.pc.next);
    case LoadEntries(ok) =>
      LoadedIsTied(c, sh, pr, ok);
    case _ =>
      QuietStepKeepsTied(c, sh, pr, a);
  }

  lemma QuietStepKeepsTied(c: Config, sh: Shared, pr: Proc, a: Action)
    requires ProcInv(c, sh, pr) && Enabled(sh, pr.pc, a) && Tied(sh, pr)
    requires !a.ExecCommit? && !a.ExecLost? && !a.LoadEntries? && !a.Fallback? && !a.BeginOffline?
    ensures Tied(Apply(c, sh, pr, a).0, Apply(c, sh, pr, a).1)
  {
    var (sh', pr') := Apply(c, sh, pr, a);
    assert sh' == sh;
    assert (pr'.cache == [] && pr'.origins == []) || (pr'.cache == pr.cache && pr'.origins == pr.origins && pr'.cached == pr.cached);
  }

  lemma SoleWriterStepKeepsTied(c: Config, s: System, p: nat, step: (nat, Action))
    requires Inv(c, s) && p in s.procs && Tied(s.shared, s.procs[p]) && SoleWriterStep(p, step)
    ensures var s' := Step(c, s, step.0, step.1); p in s'.procs && Tied(s'.shared, s'.procs[p])
  {
    if step.0 in s.procs && Enabled(s.shared, s.procs[step.0].pc, step.1) {
      if step.0 == p {
        OwnStepKeepsTied(c, s.shared, s.procs[p], step.1);
      } else {
        assert Apply(c, s.shared, s.procs[step.0], step.1).0 == s.shared;
      }
    }
  }

  /** From such a point on, a sole writer's `verify_chain()` stays valid for ever, restarts included. */
  lemma {:induction false} SoleWriterVerifiesForever(c: Config, s: System, p: nat, schedule: seq<(nat, Action)>)
    requires Inv(c, s) && p in s.procs && Tied(s.shared, s.procs[p])
    requires forall k :: 0 <= k < |schedule| ==> SoleWriterStep(p, schedule[k])
    ensures var sys := Run(c, s, schedule);
            && p in sys.procs
            && Tied(sys.shared, sys.procs[p])
            && Breaks(c.h, sys.procs[p].cache) == []
    decreases |schedule|
  {
    if schedule == [] {
      TiedVerifies(c, s.shared, s.procs[p]);
    } else {
      SoleWriterStepKeepsTied(c, s, p, schedule[0]);
      StepKeepsInv(c, s, schedule[0].0, schedule[0].1);
      SoleWriterVerifiesForever(c, Step(c, s, schedule[0].0, schedule[0].1), p, schedule[1..]);
    }
  }
}
