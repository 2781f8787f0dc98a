/** What lost replies and the in-memory fallback do (core/audit.py: `_create_chain_entry`). */
module AuditFaults {
  import opened Common
  import opened AuditChain
  import opened AuditProtocol
  import opened AuditCaches

  // ---------------------------------------------------------------------------------------------
  // One lost reply, one fallback
  // ---------------------------------------------------------------------------------------------

  /** One uncontended attempt of `p`, from the retry loop to an acknowledged commit. */
  function Attempt(p: nat, stamp: string): seq<(nat, Action)> {
    [(p, Watch), (p, Get), (p, Build(stamp)), (p, ExecCommit)]
  }

  lemma AttemptCommits(c: Config, s: System, p: nat, stamp: string)
    requires p in s.procs && s.procs[p].pc.Retrying? && s.procs[p].pc.attempt < MAX_RETRIES
    ensures var pr := s.procs[p];
            var base := Base(s.shared.state, pr.cached);
            var e := MakeEntry(c.h, base, pr.pc.ev, stamp);
            var s' := Run(c, s, Attempt(p, stamp));
            && s'.shared == Committed(c, s.shared, e, NextState(base, e))
            && s'.procs == s.procs[p := Acknowledged(pr, e, NextState(base, e), |s.shared.log|)]
  {
    var pr, pc, v := s.procs[p], s.procs[p].pc, s.shared.version;
    var base := Base(s.shared.state, pr.cached);
    var e := MakeEntry(c.h, base, pc.ev, stamp);
    var s1 := Step(c, s, p, Watch);
    assert s1.procs[p] == At(pr, Watching(pc.ev, pc.attempt, v));
    var s2 := Step(c, s1, p, Get);
    assert s2.procs[p] == At(pr, Holding(pc.ev, pc.attempt, v, s.shared.state));
    var s3 := Step(c, s2, p, Build(stamp));
    assert s3.procs[p] == At(pr, Queued(pc.ev, pc.attempt, v, e, NextState(base, e)));
    var s4 := Step(c, s3, p, ExecCommit);
    assert s4.procs[p] == Acknowledged(pr, e, NextState(base, e), |s.shared.log|);
    assert s4.procs == s.procs[p := s4.procs[p]];
    RunStep(c, s, (p, Watch), [(p, Get), (p, Build(stamp)), (p, ExecCommit)]);
    RunStep(c, s1, (p, Get), [(p, Build(stamp)), (p, ExecCommit)]);
    RunStep(c, s2, (p, Build(stamp)), [(p, ExecCommit)]);
    RunStep(c, s3, (p, ExecCommit), []);
    assert Attempt(p, stamp) == [(p, Watch)] + [(p, Get), (p, Build(stamp)), (p, ExecCommit)];
    assert [(p, Get), (p, Build(stamp)), (p, ExecCommit)] == [(p, Get)] + [(p, Build(stamp)), (p, ExecCommit)];
    assert [(p, Build(stamp)), (p, ExecCommit)] == [(p, Build(stamp))] + [(p, ExecCommit)];
    assert [(p, ExecCommit)] == [(p, ExecCommit)] + [];
  }

  /**
   * Such an attempt appends exactly one entry with the event: it has the next number, is linked to the tip, and is the
   * last one the process caches; the stored and the cached state describe it.
   */
  lemma CleanAttemptAppends(c: Config, s: System, p: nat, stamp: string)
    requires Inv(c, s) && p in s.procs && s.procs[p].pc.Retrying? && s.procs[p].pc.attempt < MAX_RETRIES
    ensures var log := s.shared.log;
            var content := Content(|log| + 1, stamp, s.procs[p].pc.ev,
                                   if log == [] then GENESIS_HASH else log[|log| - 1].entryHash);
            var e := Entry(content, c.h(content));
            var s' := Run(c, s, Attempt(p, stamp));
            && s'.shared.log == log + [e]
            && s'.shared.state.Some?
            && s'.shared.state.value.lastSequence == |log| + 1
            && s'.shared.state.value.lastHash == e.entryHash
            && p in s'.procs
            && s'.procs[p].pc == Idle
            && s'.procs[p].cache == Remember(s.procs[p].cache, e)
            && s'.procs[p].cached.lastSequence == s'.procs[p].cached.entriesCount == |log| + 1
            && s'.procs[p].cached.lastHash == e.entryHash
  {
    AttemptCommits(c, s, p, stamp);
  }

  /** After 20 failed attempts, and only then, a call can fall back: Redis stays as it is and the cached chain goes on. */
  lemma ExhaustedFallsBack(c: Config, s: System, p: nat, stamp: string)
    requires p in s.procs && s.procs[p].pc.Retrying?
    ensures var pr := s.procs[p];
            var s' := Step(c, s, p, Fallback(stamp));
            var content := Content(pr.cached.lastSequence + 1, stamp, pr.pc.ev, pr.cached.lastHash);
            var e := Entry(content, c.h(content));
            && s'.shared == s.shared
            && p in s'.procs
            && (if pr.pc.attempt < 20 then s' == s
                else
                  && s'.procs[p].pc == Idle
                  && s'.procs[p].cache == Remember(pr.cache, e)
                  && s'.procs[p].cached == pr.cached.(lastSequence := pr.cached.lastSequence + 1, lastHash := e.entryHash,
                                                      entriesCount := pr.cached.entriesCount + 1))
  {
  }

  lemma RunStep(c: Config, s: System, step: (nat, Action), rest: seq<(nat, Action)>)
    ensures Run(c, s, [step] + rest) == Run(c, Step(c, s, step.0, step.1), rest)
  {
    assert ([step] + rest)[1..] == rest;
  }

  lemma LostReplyRun(c: Config, s: System, p: nat, stamp: string)
    requires p in s.procs && s.procs[p].pc.Queued? && s.procs[p].pc.version == s.shared.version
    requires s.procs[p].pc.attempt + 1 < MAX_RETRIES
    ensures var pr := s.procs[p];
            var sh := Committed(c, s.shared, pr.pc.entry, pr.pc.next);
            var e := MakeEntry(c.h, pr.pc.next, pr.pc.ev, stamp);
            var s' := Run(c, s, [(p, ExecLost)] + Attempt(p, stamp));
            && s'.shared == Committed(c, sh, e, NextState(pr.pc.next, e))
            && p in s'.procs
            && s'.procs[p] == Acknowledged(Again(pr), e, NextState(pr.pc.next, e), |s.shared.log| + 1)
  {
    var s1 := Step(c, s, p, ExecLost);
    RunStep(c, s, (p, ExecLost), Attempt(p, stamp));
    AttemptCommits(c, s1, p, stamp);
  }

  /** The run in which `p` loses the reply to an EXEC that took effect and then retries at once. */
  function AfterLostReply(c: Config, s: System, p: nat, stamp: string): System {
    Run(c, s, [(p, ExecLost)] + Attempt(p, stamp))
  }

  ghost predicate AboutToLoseReply(c: Config, s: System, p: nat) {
    && Inv(c, s)
    && p in s.procs
    && s.procs[p].pc.Queued?
    && s.procs[p].pc.version == s.shared.version
    && s.procs[p].pc.attempt + 1 < MAX_RETRIES
  }

  /** The retry commits the event a second time; the shared log stays sound and the cache gains only the second copy. */
  lemma LostReplyDuplicates(c: Config, s: System, p: nat, stamp: string)
    requires AboutToLoseReply(c, s, p)
    ensures var s' := AfterLostReply(c, s, p, stamp);
            var first := s.procs[p].pc.entry;
            var second := MakeEntry(c.h, s.procs[p].pc.next, s.procs[p].pc.ev, stamp);
            && SharedInv(c, s'.shared)
            && s'.shared.log == s.shared.log + [first, second]
            && first.content.event == second.content.event
            && p in s'.procs
            && s'.procs[p].cache == Remember(s.procs[p].cache, second)
  {
    assert SharedInv(c, AfterLostReply(c, s, p, stamp).shared) by {
      RunKeepsInv(c, s, [(p, ExecLost)] + Attempt(p, stamp));
    }
    assert ProcInv(c, s.shared, s.procs[p]);
    LostReplyRun(c, s, p, stamp);
    AppendTwo(s.shared.log, s.procs[p].pc.entry, MakeEntry(c.h, s.procs[p].pc.next, s.procs[p].pc.ev, stamp));
  }

  lemma AppendTwo<T>(log: seq<T>, x: T, y: T)
    ensures log + [x] + [y] == log + [x, y]
  {
  }

  /** After that, a cache of committed entries no longer verifies exactly if it was not empty. */
  lemma LostReplyBreaksCache(c: Config, s: System, p: nat, stamp: string)
    requires AboutToLoseReply(c, s, p) && Local !in s.procs[p].origins
    requires var log := AfterLostReply(c, s, p, stamp).shared.log; !CollisionBetween(c.h, log, log)
    ensures p in AfterLostReply(c, s, p, stamp).procs
    ensures Breaks(c.h, AfterLostReply(c, s, p, stamp).procs[p].cache) != [] <==> s.procs[p].cache != []
  {
    var s' := AfterLostReply(c, s, p, stamp);
    LostReplyOrigins(c, s, p, stamp);
    LostReplyKeepsInv(c, s, p, stamp);
    SkippedVerdict(c.h, s.procs[p].cache, s.procs[p].origins, s.shared.log, s'.procs[p].cache, s'.shared.log);
  }

  lemma LostReplyOrigins(c: Config, s: System, p: nat, stamp: string)
    requires AboutToLoseReply(c, s, p)
    ensures p in AfterLostReply(c, s, p, stamp).procs
    ensures AfterLostReply(c, s, p, stamp).procs[p].origins == Remember(s.procs[p].origins, Logged(|s.shared.log| + 1))
  {
    LostReplyRun(c, s, p, stamp);
  }

  lemma LostReplyKeepsInv(c: Config, s: System, p: nat, stamp: string)
    requires AboutToLoseReply(c, s, p) && p in AfterLostReply(c, s, p, stamp).procs
    ensures var s' := AfterLostReply(c, s, p, stamp);
            && GenesisChain(c.h, s'.shared.log)
            && Sited(s'.procs[p].cache, s'.procs[p].origins, s'.shared.log)
            && Sited(s.procs[p].cache, s.procs[p].origins, s.shared.log)
  {
    RunKeepsInv(c, s, [(p, ExecLost)] + Attempt(p, stamp));
    assert ProcInv(c, s.shared, s.procs[p]);
  }

  /** A cache of committed entries that misses the one after its last still verifies only if it has no other entry. */
  lemma SkippedVerdict(h: Hasher, cache: seq<Entry>, origins: seq<Origin>, log: seq<Entry>, cache': seq<Entry>, log': seq<Entry>)
    requires Sited(cache, origins, log) && Local !in origins
    requires GenesisChain(h, log') && !CollisionBetween(h, log', log')
    requires Sited(cache', Remember(origins, Logged(|log| + 1)), log')
    ensures Breaks(h, cache') != [] <==> cache != []
  {
    var n, origins' := |log|, Remember(origins, Logged(|log| + 1));
    SpotsRemember(origins, n + 1);
    SitedAtSpots(cache', origins', log');
    if origins != [] {
      assert Spots(origins)[|origins| - 1] == origins[|origins| - 1].position;
      SkippedPositionBreaks(h, Spots(origins), n, cache', log');
    } else {
      BreaksAreGaps(h, cache', Spots(origins'), log');
    }
  }

  lemma SkippedPositionBreaks(h: Hasher, at: seq<nat>, n: nat, cache': seq<Entry>, log': seq<Entry>)
    requires at != [] && at[|at| - 1] < n
    requires GenesisChain(h, log') && !CollisionBetween(h, log', log')
    requires CacheAt(cache', Remember(at, n + 1), log')
    ensures Breaks(h, cache') != []
  {
    RememberKeepsLast(at, n + 1);
    LateGapBreaks(h, cache', Remember(at, n + 1), log');
  }

  lemma RememberKeepsLast<T>(cache: seq<T>, x: T)
    requires cache != []
    ensures var cache' := Remember(cache, x);
            |cache'| >= 2 && cache'[|cache'| - 1] == x && cache'[|cache'| - 2] == cache[|cache| - 1]
  {
  }

  lemma LateGapBreaks(h: Hasher, cache: seq<Entry>, at: seq<nat>, log: seq<Entry>)
    requires GenesisChain(h, log) && !CollisionBetween(h, log, log) && CacheAt(cache, at, log)
    requires |at| >= 2 && at[|at| - 1] != at[|at| - 2] + 1
    ensures Breaks(h, cache) != []
  {
    BreaksAreGaps(h, cache, at, log);
    assert !Follows(at, |at| - 1);
  }

  /** The run in which the idle `p` falls back once and then appends to Redis without being disturbed. */
  function AfterFallback(c: Config, s: System, p: nat, ev: Event, offline: Event, stamp: string): System {
    Run(c, s, [(p, BeginOffline(offline, stamp)), (p, Begin(ev))] + Attempt(p, stamp))
  }

  /**
   * The entry of a fallback and the next one appended to Redis get the same sequence number exactly if the process was
   * up to date before: its cached number was that of the last commit.
   */
  lemma FallbackReusesSequence(c: Config, s: System, p: nat, ev: Event, offline: Event, stamp: string)
    requires Inv(c, s) && p in s.procs && s.procs[p].pc.Idle?
    ensures var s' := AfterFallback(c, s, p, ev, offline, stamp);
            && p in s'.procs
            && var cache := s'.procs[p].cache;
            && |cache| >= 2
            && cache[|cache| - 2].content.event == offline
            && cache[|cache| - 1].content.event == ev
            && (cache[|cache| - 2].content.sequence == cache[|cache| - 1].content.sequence <==>
                  s.procs[p].cached.lastSequence == |s.shared.log|)
  {
    FallbackRun(c, s, p, ev, offline, stamp);
    var fallen := FellBack(c.h, s.procs[p], offline, stamp);
    LastTwo(s.procs[p].cache, MakeEntry(c.h, s.procs[p].cached, offline, stamp),
            MakeEntry(c.h, Base(s.shared.state, fallen.cached), ev, stamp));
  }

  /** That next entry is reported as a break exactly if it was not the fallback's entry that had the hash of the stored tip. */
  lemma FallbackBreaksNext(c: Config, s: System, p: nat, ev: Event, offline: Event, stamp: string)
    requires Inv(c, s) && p in s.procs && s.procs[p].pc.Idle?
    ensures var s' := AfterFallback(c, s, p, ev, offline, stamp);
            && p in s'.procs
            && var cache := s'.procs[p].cache;
            && |cache| >= 2
            && (BreakAt(c.h, cache, |cache| - 1) != [] <==>
                  cache[|cache| - 2].entryHash != Base(s.shared.state, s.procs[p].cached).lastHash)
            && (BreakAt(c.h, cache, |cache| - 1) != [] ==> Breaks(c.h, cache) != [])
  {
    FallbackRun(c, s, p, ev, offline, stamp);
    var fallen := FellBack(c.h, s.procs[p], offline, stamp);
    LastTwo(s.procs[p].cache, MakeEntry(c.h, s.procs[p].cached, offline, stamp),
            MakeEntry(c.h, Base(s.shared.state, fallen.cached), ev, stamp));
    var cache := AfterFallback(c, s, p, ev, offline, stamp).procs[p].cache;
    if Breaks(c.h, cache) == [] {
      NoBreaksCleanPosition(c.h, cache, |cache|, |cache| - 1);
    }
  }

  lemma FallbackRun(c: Config, s: System, p: nat, ev: Event, offline: Event, stamp: string)
    requires p in s.procs && s.procs[p].pc.Idle?
    ensures var s' := Run(c, s, [(p, BeginOffline(offline, stamp)), (p, Begin(ev))] + Attempt(p, stamp));
            var fallen := FellBack(c.h, s.procs[p], offline, stamp);
            && p in s'.procs
            && s'.procs[p].cache == Remember(fallen.cache, MakeEntry(c.h, Base(s.shared.state, fallen.cached), ev, stamp))
  {
    var s1 := Step(c, s, p, BeginOffline(offline, stamp));
    var s2 := Step(c, s1, p, Begin(ev));
    var t := [(p, Begin(ev))] + Attempt(p, stamp);
    assert [(p, BeginOffline(offline, stamp)), (p, Begin(ev))] + Attempt(p, stamp) == [(p, BeginOffline(offline, stamp))] + t;
    RunStep(c, s, (p, BeginOffline(offline, stamp)), t);
    RunStep(c, s1, (p, Begin(ev)), Attempt(p, stamp));
    AttemptCommits(c, s2, p, stamp);
    var fallen := FellBack(c.h, s.procs[p], offline, stamp);
    assert s2.shared == s.shared && s2.procs[p] == At(fallen, Retrying(ev, 0));
  }

  lemma LastTwo<T>(cache: seq<T>, x: T, y: T)
    ensures var cache' := Remember(Remember(cache, x), y);
            |cache'| >= 2 && cache'[|cache'| - 2] == x && cache'[|cache'| - 1] == y
  {
  }
}
