/**
 * When the sequence numbers in a process's own cache increase (core/audit.py: `_create_chain_entry`): the in-memory
 * fallback numbers its entries on, and a later commit can catch up with them or not.
 */
module AuditNumbers {
  import opened Common
  import opened AuditChain
  import opened AuditProtocol
  import opened AuditCaches

  /** Every process starts the way a restart leaves it. */
  ghost predicate FreshProcs(s: System) {
    forall p :: p in s.procs ==> s.procs[p] == Fresh(s.procs[p].cached.chainId, s.procs[p].cached.createdAt)
  }

  /** Hashes tell the entries of the log apart, also from the genesis constant. */
  ghost predicate Distinguishing(h: Hasher, log: seq<Entry>) {
    !CollisionBetween(h, log, log) && AvoidsGenesis(h, log)
  }

  /** The state of a chain without entries, or the one right after some commit. */
  predicate KnownState(cached: ChainState, log: seq<Entry>) {
    || (cached.lastSequence == 0 && cached.lastHash == GENESIS_HASH)
    || (0 < cached.lastSequence <= |log| && cached.lastHash == log[cached.lastSequence - 1].entryHash)
  }

  predicate CountsOn(cache: seq<Entry>, i: int)
    requires 0 < i < |cache|
  {
    cache[i].content.sequence == cache[i - 1].content.sequence + 1
  }

  /** Entries of the fallback are numbered on from the entry cached before them. */
  ghost predicate LocalsCount(cache: seq<Entry>, origins: seq<Origin>)
    requires |cache| == |origins|
  {
    forall i {:trigger CountsOn(cache, i)} :: 0 < i < |cache| && origins[i].Local? ==> CountsOn(cache, i)
  }

  predicate EndsWith(cache: seq<Entry>, number: int) {
    cache != [] ==> cache[|cache| - 1].content.sequence == number
  }

  ghost predicate NumberInv(pr: Proc, log: seq<Entry>) {
    && |pr.cache| == |pr.origins|
    && LocalsCount(pr.cache, pr.origins)
    && EndsWith(pr.cache, pr.cached.lastSequence)
    && (pr.pc.Booting? || pr.pc.Loading? ==> KnownState(pr.cached, log))
  }

  // ---------------------------------------------------------------------------------------------
  // Preservation
  // ---------------------------------------------------------------------------------------------

  lemma CountedSuffix(cache: seq<Entry>, origins: seq<Origin>, d: nat)
    requires |cache| == |origins| && LocalsCount(cache, origins) && d <= |cache|
    ensures LocalsCount(cache[d..], origins[d..])
  {
    forall i | 0 < i < |cache| - d && origins[d..][i].Local?
      ensures CountsOn(cache[d..], i)
    {
      assert CountsOn(cache, d + i);
    }
  }

  lemma CountedMore(cache: seq<Entry>, origins: seq<Origin>, e: Entry, o: Origin)
    requires |cache| == |origins| && LocalsCount(cache, origins)
    requires o.Local? && cache != [] ==> e.content.sequence == cache[|cache| - 1].content.sequence + 1
    ensures LocalsCount(Remember(cache, e), Remember(origins, o)) && EndsWith(Remember(cache, e), e.content.sequence)
  {
    var cache', origins' := cache + [e], origins + [o];
    forall i | 0 < i < |cache'| && origins'[i].Local?
      ensures CountsOn(cache', i)
    {
      assert i < |cache| ==> CountsOn(cache, i);
    }
    if |cache'| > CACHE_LIMIT {
      CountedSuffix(cache', origins', |cache'| - CACHE_LIMIT);
    }
  }

  /** Loaded entries end at the loaded state's hash, so also at its number. */
  lemma LoadedNumbers(c: Config, sh: Shared, pr: Proc, ok: bool)
    requires SharedInv(c, sh) && Distinguishing(c.h, sh.log) && KnownState(pr.cached, sh.log)
    ensures NumberInv(EntriesLoaded(sh, pr, ok), sh.log)
  {
    var pr' := EntriesLoaded(sh, pr, ok);
    var n := |pr'.cache|;
    EntriesLoadedParts(c, sh, pr, ok);
    assert pr'.cached == pr.cached && pr'.pc == Idle;
    if n > 0 {
      LoadedEndsAtTip(c.h, sh.log, pr'.cache, pr.cached);
    }
  }

  lemma LoadedEndsAtTip(h: Hasher, log: seq<Entry>, loaded: seq<Entry>, cached: ChainState)
    requires GenesisChain(h, log) && Distinguishing(h, log) && KnownState(cached, log)
    requires loaded != [] && AreNewest(loaded, log, |loaded|) && EndsAt(loaded, cached.lastHash)
    ensures EndsWith(loaded, cached.lastSequence)
  {
    assert loaded[|loaded| - 1] == log[|log| - 1];
    StateOfTip(h, log, cached);
  }

  lemma StateOfTip(h: Hasher, log: seq<Entry>, cached: ChainState)
    requires GenesisChain(h, log) && Distinguishing(h, log) && KnownState(cached, log) && log != []
    requires log[|log| - 1].entryHash == cached.lastHash
    ensures cached.lastSequence == |log| == log[|log| - 1].content.sequence
  {
    var n, k := |log|, cached.lastSequence;
    assert HashOk(h, log[n - 1]) && Numbered(log, n - 1);
    if 0 < k <= n && cached.lastHash == log[k - 1].entryHash {
      SameHashSameNumber(h, log, n - 1, k - 1);
    }
  }

  lemma SameHashSameNumber(h: Hasher, log: seq<Entry>, i: nat, j: nat)
    requires GenesisChain(h, log) && !CollisionBetween(h, log, log)
    requires i < |log| && j < |log| && log[i].entryHash == log[j].entryHash
    ensures i == j
  {
    assert HashOk(h, log[i]) && HashOk(h, log[j]);
    assert Numbered(log, i) && Numbered(log, j);
    SameHashSameEntry(h, log, log, i, j);
  }

  lemma KnownStays(cached: ChainState, log: seq<Entry>, log': seq<Entry>)
    requires KnownState(cached, log) && log <= log'
    ensures KnownState(cached, log')
  {
  }

  lemma OthersNumbers(pr: Proc, log: seq<Entry>, log': seq<Entry>)
    requires NumberInv(pr, log) && log <= log'
    ensures NumberInv(pr, log')
  {
    if pr.pc.Booting? || pr.pc.Loading? {
      KnownStays(pr.cached, log, log');
    }
  }

  lemma AcknowledgedNumbers(pr: Proc, e: Entry, next: ChainState, log: seq<Entry>)
    requires NumberInv(pr, log) && next.lastSequence == e.content.sequence
    ensures NumberInv(Acknowledged(pr, e, next, |log|), log + [e])
  {
    CountedMore(pr.cache, pr.origins, e, Logged(|log|));
  }

  lemma FallbackNumbers(h: Hasher, pr: Proc, ev: Event, stamp: string, log: seq<Entry>)
    requires NumberInv(pr, log)
    ensures NumberInv(FellBack(h, pr, ev, stamp), log)
  {
    CountedMore(pr.cache, pr.origins, MakeEntry(h, pr.cached, ev, stamp), Local);
  }

  lemma OwnNumbers(c: Config, sh: Shared, pr: Proc, a: Action)
    requires SharedInv(c, sh) && ProcInv(c, sh, pr) && Enabled(sh, pr.pc, a)
    requires Distinguishing(c.h, sh.log) && NumberInv(pr, sh.log)
    ensures NumberInv(Apply(c, sh, pr, a).1, Apply(c, sh, pr, a).0.log)
  {
    match a
    case ExecCommit =>
      AcknowledgedNumbers(pr, pr.pc.entry, pr.pc.next, sh.log);
    case LoadEntries(ok) =>
      LoadedNumbers(c, sh, pr, ok);
    case BeginOffline(ev, stamp) =>
      FallbackNumbers(c.h, pr, ev, stamp, sh.log);
    case Fallback(stamp) =>
      FallbackNumbers(c.h, pr, pr.pc.ev, stamp, sh.log);
    case _ =>
  }

  ghost predicate AllNumbered(s: System) {
    forall p :: p in s.procs ==> NumberInv(s.procs[p], s.shared.log)
  }

  lemma StepNumbers(c: Config, s: System, p: nat, a: Action)
    requires Inv(c, s) && AllNumbered(s) && Distinguishing(c.h, s.shared.log)
    ensures AllNumbered(Step(c, s, p, a))
  {
    StepKeepsInv(c, s, p, a);
    if p in s.procs && Enabled(s.shared, s.procs[p].pc, a) {
      var t := Step(c, s, p, a);
      forall q | q in t.procs
        ensures NumberInv(t.procs[q], t.shared.log)
      {
        if q == p {
          assert ProcInv(c, s.shared, s.procs[p]);
          OwnNumbers(c, s.shared, s.procs[p], a);
        } else {
          OthersNumbers(s.procs[q], s.shared.log, t.shared.log);
        }
      }
    }
  }

  lemma PrefixDistinguishes(h: Hasher, a: seq<Entry>, b: seq<Entry>)
    requires a <= b && Distinguishing(h, b)
    ensures Distinguishing(h, a)
  {
    forall i, j | 0 <= i < |a| && 0 <= j < |a|
      ensures !Collides(h, a[i].content, a[j].content)
    {
      assert !Collides(h, b[i].content, b[j].content);
    }
  }

  lemma {:induction false} RunNumbers(c: Config, s: System, schedule: seq<(nat, Action)>)
    requires Inv(c, s) && AllNumbered(s) && Distinguishing(c.h, Run(c, s, schedule).shared.log)
    ensures AllNumbered(Run(c, s, schedule))
    decreases |schedule|
  {
    if schedule != [] {
      var p, a := schedule[0].0, schedule[0].1;
      RunKeepsInv(c, s, schedule);
      PrefixDistinguishes(c.h, s.shared.log, Run(c, s, schedule).shared.log);
      StepNumbers(c, s, p, a);
      StepKeepsInv(c, s, p, a);
      RunNumbers(c, Step(c, s, p, a), schedule[1..]);
    }
  }

  // ---------------------------------------------------------------------------------------------
  // Main result
  // ---------------------------------------------------------------------------------------------

  /** A commit right after entries of the fallback whose number does not exceed theirs. */
  predicate Overtaken(cache: seq<Entry>, origins: seq<Origin>, i: int)
    requires 0 < i < |cache| == |origins|
  {
    origins[i].Logged? && origins[i - 1].Local? && origins[i].position < cache[i - 1].content.sequence
  }

  ghost predicate NoneOvertaken(cache: seq<Entry>, origins: seq<Origin>)
    requires |cache| == |origins|
  {
    forall i {:trigger Overtaken(cache, origins, i)} :: 0 < i < |cache| ==> !Overtaken(cache, origins, i)
  }

  lemma StepsUp(h: Hasher, log: seq<Entry>, cache: seq<Entry>, origins: seq<Origin>, i: nat)
    requires GenesisChain(h, log) && Sited(cache, origins, log) && LocalsCount(cache, origins) && 0 < i < |cache|
    ensures cache[i - 1].content.sequence < cache[i].content.sequence <==> !Overtaken(cache, origins, i)
  {
    match origins[i]
    case Local =>
      assert CountsOn(cache, i);
    case Logged(p) =>
      assert cache[i] == log[p] && Numbered(log, p);
      if origins[i - 1].Logged? {
        assert Numbered(log, origins[i - 1].position);
      }
  }

  lemma {:induction false} AdjacentIncrease(cache: seq<Entry>, i: nat, j: nat)
    requires forall k :: 0 < k < |cache| ==> cache[k - 1].content.sequence < cache[k].content.sequence
    requires i < j < |cache|
    ensures cache[i].content.sequence < cache[j].content.sequence
    decreases j
  {
    if i < j - 1 {
      AdjacentIncrease(cache, i, j - 1);
    }
    assert cache[j - 1].content.sequence < cache[j].content.sequence;
  }

  lemma IncreasingIffNoneOvertaken(h: Hasher, log: seq<Entry>, cache: seq<Entry>, origins: seq<Origin>)
    requires GenesisChain(h, log) && Sited(cache, origins, log) && LocalsCount(cache, origins)
    ensures Increasing(cache) <==> NoneOvertaken(cache, origins)
  {
    forall i | 0 < i < |cache|
      ensures cache[i - 1].content.sequence < cache[i].content.sequence <==> !Overtaken(cache, origins, i)
    {
      StepsUp(h, log, cache, origins, i);
    }
    if NoneOvertaken(cache, origins) {
      forall i, j | 0 <= i < j < |cache|
        ensures cache[i].content.sequence < cache[j].content.sequence
      {
        assert forall k :: 0 < k < |cache| ==> !Overtaken(cache, origins, k);
        AdjacentIncrease(cache, i, j);
      }
    }
  }

  /**
   * In every run, with any number of fallbacks, commits of others and restarts: the numbers in the cache of a process
   * strictly increase if and only if no commit comes right after entries of the fallback that reached its number.
   */
  lemma NumbersIncreaseIff(c: Config, s: System, schedule: seq<(nat, Action)>, p: nat)
    requires Initial(s) && FreshProcs(s) && p in Run(c, s, schedule).procs
    requires Distinguishing(c.h, Run(c, s, schedule).shared.log)
    ensures var pr := Run(c, s, schedule).procs[p];
            && |pr.cache| == |pr.origins|
            && (Increasing(pr.cache) <==> NoneOvertaken(pr.cache, pr.origins))
  {
    var sys := Run(c, s, schedule);
    RunKeepsInv(c, s, schedule);
    RunNumbers(c, s, schedule);
    assert ProcInv(c, sys.shared, sys.procs[p]) && NumberInv(sys.procs[p], sys.shared.log);
    IncreasingIffNoneOvertaken(c.h, sys.shared.log, sys.procs[p].cache, sys.procs[p].origins);
  }

  lemma {:induction false} LocalsNumberedOn(h: Hasher, log: seq<Entry>, cache: seq<Entry>, origins: seq<Origin>, j: nat, i: nat)
    requires GenesisChain(h, log) && Sited(cache, origins, log) && LocalsCount(cache, origins)
    requires j <= i < |cache| && origins[j].Logged? && forall k :: j < k <= i ==> origins[k].Local?
    ensures cache[i].content.sequence == origins[j].position + 1 + (i - j)
    decreases i
  {
    if i == j {
      assert cache[j] == log[origins[j].position] && Numbered(log, origins[j].position);
    } else {
      LocalsNumberedOn(h, log, cache, origins, j, i - 1);
      assert CountsOn(cache, i);
    }
  }

  /**
   * In terms of the log: after `n` entries of the fallback that follow a commit at place `q`, the next commit is
   * overtaken exactly if at most `n` places lie from `q` to its own.
   */
  lemma OvertakenIffTooClose(h: Hasher, log: seq<Entry>, cache: seq<Entry>, origins: seq<Origin>, j: nat, n: nat)
    requires GenesisChain(h, log) && Sited(cache, origins, log) && LocalsCount(cache, origins)
    requires 0 < n && j + n + 1 < |cache| && origins[j].Logged? && origins[j + n + 1].Logged?
    requires forall k :: j < k <= j + n ==> origins[k].Local?
    ensures Overtaken(cache, origins, j + n + 1) <==> origins[j + n + 1].position - origins[j].position <= n
  {
    LocalsNumberedOn(h, log, cache, origins, j, j + n);
    assert origins[j + n].Local?;
  }
}
