/** The incremental audit stream (main.py: `stream_audit_entries.event_generator`). */
module EventStream {
  import opened Common
  import opened AuditChain
  import opened AuditProtocol
  import AuditNumbers

  const WINDOW: nat := 200

  predicate BySequence(a: Entry, b: Entry) {
    a.content.sequence <= b.content.sequence
  }

  function Newer(entries: seq<Entry>, seen: int): seq<Entry> {
    if entries == [] then []
    else (if entries[0].content.sequence > seen then [entries[0]] else []) + Newer(entries[1..], seen)
  }

  /** What one pass delivers from the entries it looked at. */
  function Batch(entries: seq<Entry>, seen: int): seq<Entry> {
    Sort(Newer(entries, seen), BySequence)
  }

  function MaxSeen(entries: seq<Entry>, seen: int): int {
    if entries == [] then seen
    else
      var rest := MaxSeen(entries[..|entries| - 1], seen);
      if entries[|entries| - 1].content.sequence > rest then entries[|entries| - 1].content.sequence else rest
  }

  /** What the whole run delivers; `caches` is the cache at each pass. */
  function Delivered(caches: seq<seq<Entry>>, seen: int): seq<Entry>
    decreases |caches|
  {
    if caches == [] then []
    else
      var batch := Batch(LastN(caches[0], WINDOW), seen);
      batch + Delivered(caches[1..], MaxSeen(batch, seen))
  }

  /** The generator: one iteration per pass, until the client disconnects after the last one. */
  method EventGenerator(caches: seq<seq<Entry>>, lastSequence: int) returns (out: seq<Entry>)
    ensures out == Delivered(caches, lastSequence)
  {
    out := [];
    var seen := lastSequence;
    for i := 0 to |caches|
      invariant Delivered(caches, lastSequence) == out + Delivered(caches[i..], seen)
    {
      var entries := LastN(caches[i], WINDOW);
      var batch := Batch(entries, seen);
      assert caches[i..][0] == caches[i] && caches[i..][1..] == caches[i + 1..];
      ghost var rest := Delivered(caches[i + 1..], MaxSeen(batch, seen));
      assert out + (batch + rest) == out + batch + rest;
      out, seen := Emit(batch, out, seen);
    }
    assert caches[|caches|..] == [];
  }

  /** Sends a batch and moves the high-water mark along. */
  method Emit(batch: seq<Entry>, sent: seq<Entry>, start: int) returns (out: seq<Entry>, seen: int)
    ensures out == sent + batch && seen == MaxSeen(batch, start)
  {
    out, seen := sent, start;
    for j := 0 to |batch|
      invariant out == sent + batch[..j] && seen == MaxSeen(batch[..j], start)
    {
      assert batch[..j + 1][..j] == batch[..j];
      out := out + [batch[j]];
      if batch[j].content.sequence > seen {
        seen := batch[j].content.sequence;
      }
    }
    assert batch[..|batch|] == batch;
  }

  // ---------------------------------------------------------------------------------------------
  // Order and duplicates
  // ---------------------------------------------------------------------------------------------

  /** No two entries carry the same sequence number. */
  ghost predicate DistinctSequences(s: seq<Entry>) {
    forall i, j :: 0 <= i < j < |s| ==> s[i].content.sequence != s[j].content.sequence
  }

  lemma {:induction false} NewerMembers(entries: seq<Entry>, seen: int, x: Entry)
    ensures x in Newer(entries, seen) <==> x in entries && x.content.sequence > seen
  {
    if entries != [] {
      NewerMembers(entries[1..], seen, x);
    }
  }

  lemma {:induction false} MaxSeenBounds(entries: seq<Entry>, seen: int)
    ensures seen <= MaxSeen(entries, seen)
    ensures forall k :: 0 <= k < |entries| ==> entries[k].content.sequence <= MaxSeen(entries, seen)
    ensures MaxSeen(entries, seen) == seen || exists k :: 0 <= k < |entries| && entries[k].content.sequence == MaxSeen(entries, seen)
  {
    if entries != [] {
      MaxSeenBounds(entries[..|entries| - 1], seen);
    }
  }

  lemma BatchOrdered(entries: seq<Entry>, seen: int)
    ensures Ordered(Batch(entries, seen), BySequence)
    ensures forall x :: x in Batch(entries, seen) <==> x in entries && x.content.sequence > seen
  {
    SortOrdered(Newer(entries, seen), BySequence);
    SortMembers(Newer(entries, seen), BySequence);
    forall x
      ensures x in Newer(entries, seen) <==> x in entries && x.content.sequence > seen
    {
      NewerMembers(entries, seen, x);
    }
  }

  /** Every later delivery carries a number above everything delivered in earlier passes. */
  lemma {:induction false} DeliveredAbove(caches: seq<seq<Entry>>, seen: int)
    ensures forall k :: 0 <= k < |Delivered(caches, seen)| ==> Delivered(caches, seen)[k].content.sequence > seen
    decreases |caches|
  {
    if caches != [] {
      var batch := Batch(LastN(caches[0], WINDOW), seen);
      BatchOrdered(LastN(caches[0], WINDOW), seen);
      MaxSeenBounds(batch, seen);
      DeliveredAbove(caches[1..], MaxSeen(batch, seen));
      assert forall k :: 0 <= k < |batch| ==> batch[k] in batch;
    }
  }

  /** Every pass finds new entries with pairwise distinct numbers. */
  ghost predicate DistinctBatches(caches: seq<seq<Entry>>, seen: int)
    decreases |caches|
  {
    caches == [] ||
    (var batch := Batch(LastN(caches[0], WINDOW), seen);
     DistinctSequences(batch) && DistinctBatches(caches[1..], MaxSeen(batch, seen)))
  }

  lemma OrderedDistinctIncreases(s: seq<Entry>)
    requires Ordered(s, BySequence)
    ensures Increasing(s) <==> DistinctSequences(s)
  {
    forall i, j | 0 <= i < j < |s|
      ensures s[i].content.sequence <= s[j].content.sequence
    {
      assert BySequence(s[i], s[j]);
    }
  }

  /**
   * The stream is strictly increasing over its whole run, so free of duplicates, exactly when no pass meets two new
   * entries with the same number; passes never interfere with each other.
   */
  lemma {:induction false} StrictlyIncreasingIff(caches: seq<seq<Entry>>, seen: int)
    ensures Increasing(Delivered(caches, seen)) <==> DistinctBatches(caches, seen)
    decreases |caches|
  {
    if caches != [] {
      var batch := Batch(LastN(caches[0], WINDOW), seen);
      var next := MaxSeen(batch, seen);
      var rest := Delivered(caches[1..], next);
      BatchOrdered(LastN(caches[0], WINDOW), seen);
      OrderedDistinctIncreases(batch);
      MaxSeenBounds(batch, seen);
      DeliveredAbove(caches[1..], next);
      StrictlyIncreasingIff(caches[1..], next);
      IncreasingConcat(batch, rest, next);
    }
  }

  lemma IncreasingConcat(a: seq<Entry>, b: seq<Entry>, bound: int)
    requires forall k :: 0 <= k < |a| ==> a[k].content.sequence <= bound
    requires forall k :: 0 <= k < |b| ==> b[k].content.sequence > bound
    ensures Increasing(a + b) <==> Increasing(a) && Increasing(b)
  {
    var c := a + b;
    if Increasing(c) {
      forall i, j | 0 <= i < j < |a|
        ensures a[i].content.sequence < a[j].content.sequence
      {
        assert c[i].content.sequence < c[j].content.sequence;
      }
      forall i, j | 0 <= i < j < |b|
        ensures b[i].content.sequence < b[j].content.sequence
      {
        assert c[|a| + i].content.sequence < c[|a| + j].content.sequence;
      }
    }
  }

  // ---------------------------------------------------------------------------------------------
  // Completeness
  // ---------------------------------------------------------------------------------------------

  /** The cache after the first `n` entries of `all` were appended. */
  function CacheOf(all: seq<Entry>, n: nat): seq<Entry>
    requires n <= |all|
  {
    LastN(all[..n], CACHE_LIMIT)
  }

  /** The caches at the passes made when `lengths[0]`, `lengths[1]`, ... entries had been appended. */
  function Caches(all: seq<Entry>, lengths: seq<nat>): seq<seq<Entry>>
    requires forall k :: 0 <= k < |lengths| ==> lengths[k] <= |all|
  {
    seq(|lengths|, k requires 0 <= k < |lengths| => CacheOf(all, lengths[k]))
  }

  ghost predicate Advancing(lengths: seq<nat>, from: nat, limit: nat) {
    && (lengths != [] ==> from <= lengths[0])
    && (forall k :: 0 <= k < |lengths| ==> lengths[k] <= limit)
    && (forall k :: 0 < k < |lengths| ==> lengths[k - 1] <= lengths[k])
  }

  function Last(lengths: seq<nat>, from: nat): nat {
    if lengths == [] then from else lengths[|lengths| - 1]
  }

  /** At most 200 entries arrive between consecutive passes, `from` being where the previous pass left off. */
  ghost predicate SmallGaps(lengths: seq<nat>, from: nat) {
    && (lengths != [] ==> lengths[0] <= from + 200)
    && (forall k :: 0 < k < |lengths| ==> lengths[k] <= lengths[k - 1] + 200)
  }

  lemma {:induction false} NewerOfIncreasing(s: seq<Entry>, seen: int, cut: nat)
    requires Increasing(s) && cut <= |s|
    requires forall k :: 0 <= k < cut ==> s[k].content.sequence <= seen
    requires forall k :: cut <= k < |s| ==> s[k].content.sequence > seen
    ensures Newer(s, seen) == s[cut..]
  {
    if s != [] {
      NewerOfIncreasing(s[1..], seen, if cut > 0 then cut - 1 else 0);
    }
  }

  lemma WindowIsSlice(all: seq<Entry>, n: nat)
    requires n <= |all|
    ensures LastN(CacheOf(all, n), WINDOW) == all[if n <= WINDOW then 0 else n - WINDOW..n]
  {
  }

  lemma SliceOrdered(all: seq<Entry>, i: nat, j: nat)
    requires Increasing(all) && i <= j <= |all|
    ensures Ordered(all[i..j], BySequence) && Increasing(all[i..j])
  {
  }

  /** Over an increasing cache a pass that has seen everything up to `from` delivers exactly what is new in its window. */
  lemma PassDelivers(all: seq<Entry>, from: nat, n: nat, seen: int)
    requires Increasing(all) && from <= n <= |all|
    requires forall k :: 0 <= k < from ==> all[k].content.sequence <= seen
    requires forall k :: from <= k < |all| ==> all[k].content.sequence > seen
    ensures Batch(LastN(CacheOf(all, n), WINDOW), seen) == all[Start(from, n)..n]
  {
    var base := if n <= WINDOW then 0 else n - WINDOW;
    WindowIsSlice(all, n);
    NewInSlice(all, from, base, n, seen);
    SliceOrdered(all, Start(from, n), n);
    SortIdentity(all[Start(from, n)..n], BySequence);
  }

  lemma NewInSlice(all: seq<Entry>, from: nat, base: nat, n: nat, seen: int)
    requires Increasing(all) && from <= n <= |all| && base <= n
    requires forall k :: 0 <= k < from ==> all[k].content.sequence <= seen
    requires forall k :: from <= k < |all| ==> all[k].content.sequence > seen
    ensures Newer(all[base..n], seen) == all[if from <= base then base else from..n]
  {
    var cut := if from <= base then 0 else from - base;
    SliceOrdered(all, base, n);
    assert forall k :: 0 <= k < n - base ==> all[base..n][k] == all[base + k];
    NewerOfIncreasing(all[base..n], seen, cut);
    assert all[base..n][cut..] == all[base + cut..n];
  }

  /** Where a pass over `n` entries starts delivering to a client that has everything before `from`. */
  function Start(from: nat, n: nat): (r: nat)
    requires from <= n
    ensures from <= r <= n
  {
    if n - from <= WINDOW then from else n - WINDOW
  }

  lemma MaxSeenOfSlice(all: seq<Entry>, start: nat, n: nat, seen: int)
    requires Increasing(all) && start <= n <= |all|
    requires forall k :: start <= k < |all| ==> all[k].content.sequence > seen
    ensures MaxSeen(all[start..n], seen) == if start < n then all[n - 1].content.sequence else seen
  {
    MaxSeenBounds(all[start..n], seen);
    if start < n {
      assert all[start..n][n - start - 1] == all[n - 1];
    }
  }

  /** The client has exactly the entries before position `from`. */
  ghost predicate UpToDate(all: seq<Entry>, from: nat, seen: int)
    requires from <= |all|
  {
    && (forall k :: 0 <= k < from ==> all[k].content.sequence <= seen)
    && (forall k :: from <= k < |all| ==> all[k].content.sequence > seen)
  }

  lemma FirstPass(all: seq<Entry>, lengths: seq<nat>, from: nat, seen: int) returns (next: int)
    requires Increasing(all) && from <= |all| && Advancing(lengths, from, |all|) && lengths != []
    requires UpToDate(all, from, seen)
    ensures UpToDate(all, lengths[0], next)
    ensures Delivered(Caches(all, lengths), seen)
            == all[Start(from, lengths[0])..lengths[0]] + Delivered(Caches(all, lengths[1..]), next)
  {
    var n := lengths[0];
    PassDelivers(all, from, n, seen);
    next := MaxSeen(all[Start(from, n)..n], seen);
    StaysUpToDate(all, from, n, seen);
    CachesSplit(all, lengths);
  }

  lemma StaysUpToDate(all: seq<Entry>, from: nat, n: nat, seen: int)
    requires Increasing(all) && from <= n <= |all| && UpToDate(all, from, seen)
    ensures UpToDate(all, n, MaxSeen(all[Start(from, n)..n], seen))
  {
    MaxSeenOfSlice(all, Start(from, n), n, seen);
    if Start(from, n) < n {
      assert forall k :: 0 <= k < |all| ==> (k <= n - 1 <==> all[k].content.sequence <= all[n - 1].content.sequence);
    }
  }

  lemma CachesSplit(all: seq<Entry>, lengths: seq<nat>)
    requires lengths != [] && forall k :: 0 <= k < |lengths| ==> lengths[k] <= |all|
    ensures Caches(all, lengths) == [CacheOf(all, lengths[0])] + Caches(all, lengths[1..])
  {
  }

  lemma {:induction false} AdvancingEnd(lengths: seq<nat>, from: nat, limit: nat)
    requires Advancing(lengths, from, limit) && from <= limit
    ensures from <= Last(lengths, from) <= limit
    ensures lengths != [] ==> lengths[0] <= Last(lengths, from) && Advancing(lengths[1..], lengths[0], limit)
    decreases |lengths|
  {
    if |lengths| > 1 {
      assert lengths[1..][0] == lengths[1];
      AdvancingEnd(lengths[1..], lengths[0], limit);
    }
  }

  /** A client never receives more than what was appended since its position. */
  lemma {:induction false} NothingExtra(all: seq<Entry>, lengths: seq<nat>, from: nat, seen: int)
    requires Increasing(all) && from <= |all| && Advancing(lengths, from, |all|) && UpToDate(all, from, seen)
    ensures |Delivered(Caches(all, lengths), seen)| <= Last(lengths, from) - from
    decreases |lengths|
  {
    if lengths != [] {
      AdvancingEnd(lengths, from, |all|);
      var next := FirstPass(all, lengths, from, seen);
      NothingExtra(all, lengths[1..], lengths[0], next);
    }
  }

  /**
   * A client that has everything before position `from` of an increasing cache, and nothing after, receives exactly
   * all later entries, in order, if and only if at most 200 arrive between passes.
   */
  lemma {:induction false} NothingMissedIff(all: seq<Entry>, lengths: seq<nat>, from: nat, seen: int)
    requires Increasing(all) && from <= |all| && Advancing(lengths, from, |all|) && UpToDate(all, from, seen)
    ensures from <= Last(lengths, from) <= |all|
    ensures Delivered(Caches(all, lengths), seen) == all[from..Last(lengths, from)] <==> SmallGaps(lengths, from)
    decreases |lengths|
  {
    AdvancingEnd(lengths, from, |all|);
    if lengths != [] {
      var n := lengths[0];
      var next := FirstPass(all, lengths, from, seen);
      var tail := Delivered(Caches(all, lengths[1..]), next);
      assert Last(lengths[1..], n) == Last(lengths, from);
      assert |tail| <= Last(lengths, from) - n by {
        NothingExtra(all, lengths[1..], n, next);
      }
      assert tail == all[n..Last(lengths, from)] <==> SmallGaps(lengths[1..], n) by {
        NothingMissedIff(all, lengths[1..], n, next);
      }
      SmallGapsStep(lengths, from);
      JoinPasses(all, from, n, Last(lengths, from), tail);
    }
  }

  /** A first pass and what follows make up everything exactly when neither leaves a hole. */
  lemma JoinPasses(all: seq<Entry>, from: nat, n: nat, end: nat, tail: seq<Entry>)
    requires from <= n <= end <= |all| && |tail| <= end - n
    ensures var got := all[Start(from, n)..n] + tail;
            && |got| <= end - from
            && (got == all[from..end] <==> n - from <= WINDOW && tail == all[n..end])
  {
    var got := all[Start(from, n)..n] + tail;
    if Start(from, n) == from {
      assert all[from..end] == all[from..n] + all[n..end];
      assert got[n - from..] == tail && all[from..end][n - from..] == all[n..end];
    } else {
      assert |got| < |all[from..end]|;
    }
  }

  lemma SmallGapsStep(lengths: seq<nat>, from: nat)
    requires lengths != []
    ensures SmallGaps(lengths, from) <==> lengths[0] - from <= WINDOW && SmallGaps(lengths[1..], lengths[0])
  {
    var rest := lengths[1..];
    if SmallGaps(rest, lengths[0]) && lengths[0] - from <= WINDOW {
      forall k | 0 < k < |lengths|
        ensures lengths[k] - lengths[k - 1] <= WINDOW
      {
        if k > 1 {
          assert rest[k - 1] - rest[k - 2] <= WINDOW;
        }
      }
    }
  }

  // ---------------------------------------------------------------------------------------------
  // Streams of the audit log
  // ---------------------------------------------------------------------------------------------

  lemma {:induction false} NewerIncreases(s: seq<Entry>, seen: int)
    requires Increasing(s)
    ensures Increasing(Newer(s, seen))
    ensures forall x :: x in Newer(s, seen) ==> x in s
  {
    if s != [] {
      NewerIncreases(s[1..], seen);
      var rest := Newer(s[1..], seen);
      forall k | 0 <= k < |rest|
        ensures s[0].content.sequence < rest[k].content.sequence
      {
        assert rest[k] in s[1..];
      }
    }
  }

  lemma IncreasingBatch(cache: seq<Entry>, seen: int)
    requires Increasing(cache)
    ensures DistinctSequences(Batch(LastN(cache, WINDOW), seen))
  {
    var news := Newer(LastN(cache, WINDOW), seen);
    NewerIncreases(LastN(cache, WINDOW), seen);
    assert Ordered(news, BySequence);
    SortIdentity(news, BySequence);
  }

  lemma {:induction false} IncreasingCachesAreDistinct(caches: seq<seq<Entry>>, seen: int)
    requires forall k :: 0 <= k < |caches| ==> Increasing(caches[k])
    ensures DistinctBatches(caches, seen)
    decreases |caches|
  {
    if caches != [] {
      IncreasingBatch(caches[0], seen);
      IncreasingCachesAreDistinct(caches[1..], MaxSeen(Batch(LastN(caches[0], WINDOW), seen), seen));
    }
  }

  lemma CommittedCacheIncreases(h: Hasher, cache: seq<Entry>, origins: seq<Origin>, log: seq<Entry>)
    requires GenesisChain(h, log) && Sited(cache, origins, log) && Local !in origins
    ensures Increasing(cache)
  {
    forall i, j | 0 <= i < j < |cache|
      ensures cache[i].content.sequence < cache[j].content.sequence
    {
      assert origins[i].Logged? && origins[j].Logged?;
      assert Numbered(log, origins[i].position) && Numbered(log, origins[j].position);
    }
  }

  /** The process `p` exists after `n` steps and has no entry of the fallback in its cache. */
  ghost predicate CommittedOnly(c: Config, s: System, schedule: seq<(nat, Action)>, p: nat, n: nat) {
    n <= |schedule| && p in Run(c, s, schedule[..n]).procs && Local !in Run(c, s, schedule[..n]).procs[p].origins
  }

  /**
   * A stream served by any process in any run, whose passes find the caches of that process at the moments `times`: as
   * long as they hold no entry of the fallback, the client receives strictly increasing numbers.
   */
  lemma AuditStreamIncreases(c: Config, s: System, schedule: seq<(nat, Action)>, p: nat, times: seq<nat>,
                             caches: seq<seq<Entry>>, seen: int)
    requires Initial(s) && |times| == |caches|
    requires forall k :: 0 <= k < |times| ==>
               CommittedOnly(c, s, schedule, p, times[k]) && caches[k] == Run(c, s, schedule[..times[k]]).procs[p].cache
    ensures Increasing(Delivered(caches, seen))
  {
    forall k | 0 <= k < |caches|
      ensures Increasing(caches[k])
    {
      var sys := Run(c, s, schedule[..times[k]]);
      assert CommittedOnly(c, s, schedule, p, times[k]);
      RunKeepsInv(c, s, schedule[..times[k]]);
      CommittedCacheIncreases(c.h, sys.procs[p].cache, sys.procs[p].origins, sys.shared.log);
    }
    IncreasingCachesAreDistinct(caches, seen);
    StrictlyIncreasingIff(caches, seen);
  }

  /** The process `p` exists after `n` steps, and no commit in its cache was overtaken by entries of the fallback. */
  ghost predicate NotOvertaken(c: Config, s: System, schedule: seq<(nat, Action)>, p: nat, n: nat) {
    && n <= |schedule|
    && var sys := Run(c, s, schedule[..n]);
       && p in sys.procs
       && |sys.procs[p].cache| == |sys.procs[p].origins|
       && AuditNumbers.NoneOvertaken(sys.procs[p].cache, sys.procs[p].origins)
       && AuditNumbers.Distinguishing(c.h, sys.shared.log)
  }

  /** The same with entries of the fallback in the caches, as long as none of them overtook a commit. */
  lemma AuditStreamPastFallbacks(c: Config, s: System, schedule: seq<(nat, Action)>, p: nat, times: seq<nat>,
                                 caches: seq<seq<Entry>>, seen: int)
    requires Initial(s) && AuditNumbers.FreshProcs(s) && |times| == |caches|
    requires forall k :: 0 <= k < |times| ==>
               NotOvertaken(c, s, schedule, p, times[k]) && caches[k] == Run(c, s, schedule[..times[k]]).procs[p].cache
    ensures Increasing(Delivered(caches, seen))
  {
    forall k | 0 <= k < |caches|
      ensures Increasing(caches[k])
    {
      assert NotOvertaken(c, s, schedule, p, times[k]);
      AuditNumbers.NumbersIncreaseIff(c, s, schedule[..times[k]], p);
    }
    IncreasingCachesAreDistinct(caches, seen);
    StrictlyIncreasingIff(caches, seen);
  }
}
