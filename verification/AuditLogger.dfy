/**
 * The audit logger object and the Redis server it shares with other processes (core/audit.py: `AuditLogger`).
 * Other processes run inside `OthersRun`, about which a caller knows only what every step of the protocol
 * guarantees; every round trip may fail.
 */
module AuditLogging {
  import opened Common
  import opened AuditChain
  import opened AuditProtocol

  /**
   * How one attempt fares. Its round trips: the connection with WATCH, the GET, EXEC reaching the server, and the reply to
   * EXEC. And whether others commit before WATCH, between WATCH and GET, and between GET and EXEC.
   */
  datatype Trip = Trip(
    connected: bool,
    read: bool,
    reached: bool,
    answered: bool,
    early: bool,
    between: bool,
    late: bool
  )

  /** Every command reaches the server, and no one else commits between WATCH and EXEC. */
  predicate Lands(t: Trip) {
    t.connected && t.read && t.reached && !t.between && !t.late
  }

  /** The reply arrives as well. */
  predicate Clean(t: Trip) {
    Lands(t) && t.answered
  }

  predicate Quiet(t: Trip) {
    !t.early && !t.between && !t.late
  }

  class RedisServer {
    const c: Config
    var db: Shared

    constructor (c: Config)
      ensures Valid() && this.c == c && db == Shared(None, 0, [], [])
    {
      this.c := c;
      db := Shared(None, 0, [], []);
    }

    ghost predicate Valid()
      reads this
    {
      SharedInv(c, db)
    }

    /**
     * Other processes run, and commit if they are `busy`. A caller knows no more about them than what runs of the
     * protocol guarantee (`AuditProtocol.RunKeepsInv`).
     */
    method OthersRun(busy: bool)
      requires Valid()
      modifies this
      ensures Valid() && Grows(old(db), db)
      ensures busy <==> db.version != old(db.version)
    {
      if busy {
        var commits: nat :| commits > 0;
        for i := 0 to commits
          invariant Valid() && Grows(old(db), db) && db.version == old(db.version) + i
        {
          CommitOne();
        }
      }
    }

    /** Some commit of another process. */
    method CommitOne()
      requires Valid()
      modifies this
      ensures Valid() && Grows(old(db), db) && db.version == old(db.version) + 1
    {
      var own: ChainState := *;
      var ev: Event := *;
      var stamp: string := *;
      var base := Base(db.state, own);
      var entry := MakeEntry(c.h, base, ev, stamp);
      CommitExtendsChain(c, db, own, entry);
      db := Committed(c, db, entry, NextState(base, entry));
    }

    /** EXEC of a queued SET+ZADD+ZREMRANGEBYRANK under WATCH. The connection may break before or after it takes effect. */
    method Exec(version: nat, entry: Entry, next: ChainState, reached: bool, answered: bool)
      returns (done: bool, ghost took: bool)
      requires Valid()
      requires version == db.version ==> SharedInv(c, Committed(c, db, entry, next))
      modifies this
      ensures Valid()
      ensures took <==> reached && version == old(db.version)
      ensures done <==> took && answered
      ensures db == if took then Committed(c, old(db), entry, next) else old(db)
    {
      took := reached && version == db.version;
      done := false;
      if reached && version == db.version {
        db := Committed(c, db, entry, next);
        done := answered;
      }
    }
  }

  class AuditLogger {
    const h: Hasher
    var chainState: ChainState
    var chainEntries: seq<Entry>

    /**
     * Start-up: a fresh chain name, then whatever Redis still holds. `r` is null when there is no Redis, `stateRead` and
     * `entriesRead` tell which reads work, and `early` and `between` whether others commit before and between them.
     */
    constructor (h: Hasher, r: RedisServer?, chainId: string, createdAt: string,
                 stateRead: bool, entriesRead: bool, early: bool, between: bool)
      requires r != null ==> r.Valid() && r.c.h == h
      modifies r
      ensures this.h == h
      ensures r != null ==> r.Valid() && Grows(old(r.db), r.db)
      ensures Breaks(h, chainEntries) == []
      ensures r == null ==> chainEntries == [] && chainState == ChainState(0, GENESIS_HASH, chainId, createdAt, 0)
      ensures r != null ==> exists mid :: (
        && Between(old(r.db), mid, r.db, early, between)
        && chainState == if stateRead && mid.state.Some? then mid.state.value
                         else ChainState(0, GENESIS_HASH, chainId, createdAt, 0))
      ensures r != null ==>
        chainEntries == if entriesRead && EndsAt(r.db.entries, chainState.lastHash) then r.db.entries else []
      ensures r != null && !between && stateRead && entriesRead ==> chainEntries == r.db.entries
    {
      this.h := h;
      chainState := ChainState(0, GENESIS_HASH, chainId, createdAt, 0);
      chainEntries := [];
      new;
      BreaksEmptyIffChainOk(h, []);
      if r != null {
        LoadChainState(r, stateRead, early);
        ghost var read := r.db;
        LoadChainEntries(r, entriesRead, between);
        GrowsTransitive(old(r.db), read, r.db);
        StoredEntriesEndAtTip(r.c, r.db);
        assert Between(old(r.db), read, r.db, early, between);
      }
    }

    /** Adopts the stored state if it can be read. */
    method LoadChainState(r: RedisServer, read: bool, busy: bool)
      requires r.Valid()
      modifies this`chainState, r
      ensures r.Valid() && Grows(old(r.db), r.db) && (!busy ==> r.db == old(r.db))
      ensures chainState == if read && r.db.state.Some? then r.db.state.value else old(chainState)
    {
      r.OthersRun(busy);
      if read && r.db.state.Some? {
        chainState := r.db.state.value;
      }
    }

    /** Parses the stored entries, if they can be read, and discards them unless they end at the cached tip. */
    method ReadEntries(stored: seq<Entry>, read: bool) returns (loaded: seq<Entry>)
      ensures loaded == if read && EndsAt(stored, chainState.lastHash) then stored else []
    {
      if !read {
        return [];
      }
      loaded := stored;
      if loaded != [] && loaded[|loaded| - 1].entryHash != chainState.lastHash {
        loaded := [];
      }
    }

    /** Adopts the stored entries if they continue to the cached tip. */
    method LoadChainEntries(r: RedisServer, read: bool, busy: bool)
      requires r.Valid() && r.c.h == h && chainEntries == []
      modifies this`chainEntries, r
      ensures r.Valid() && Grows(old(r.db), r.db) && (!busy ==> r.db == old(r.db))
      ensures chainEntries == if read && EndsAt(r.db.entries, chainState.lastHash) then r.db.entries else []
      ensures Breaks(h, chainEntries) == []
    {
      r.OthersRun(busy);
      StoredEntriesVerify(r.c, r.db);
      BreaksEmptyIffChainOk(h, []);
      var loaded := ReadEntries(r.db.entries, read);
      assert chainEntries + loaded == loaded;
      chainEntries := chainEntries + loaded;
    }

    /**
     * Appends one event. `stamps` is the clock, read once per attempt, and `trips` tells how each attempt fares. The call
     * is acknowledged in the first clean attempt, and `attempts` counts the tries before it. `copies` counts the entries
     * this call committed, one for each attempt that landed. `seen` is what Redis held at the WATCH of the last attempt.
     */
    method CreateChainEntry(r: RedisServer?, ev: Event, stamps: seq<string>, trips: seq<Trip>)
      returns (entry: Entry, committed: bool, attempts: nat, ghost copies: nat, ghost seen: Shared)
      requires r != null ==> r.Valid() && r.c.h == h
      requires |trips| == MAX_RETRIES && |stamps| == MAX_RETRIES + 1
      modifies this, r
      ensures r != null ==> r.Valid() && Grows(old(r.db), r.db)
      ensures attempts <= 20
      ensures committed <==> r != null && exists i {:trigger Clean(trips[i])} :: 0 <= i < 20 && Clean(trips[i])
      ensures forall i {:trigger Clean(trips[i])} :: 0 <= i < attempts ==> !Clean(trips[i])
      ensures attempts == 20 || (r == null && attempts == 0) || Clean(trips[attempts])
      ensures r == null ==> copies == 0
      ensures r != null ==> Landed(old(r.db), r.db, trips, if committed then attempts + 1 else attempts, copies)
      ensures committed ==> Grows(old(r.db), seen) && Appended(r.c, old(chainState), seen, r.db, ev, stamps[attempts], entry)
      ensures committed && attempts == 0 && !trips[0].early ==> seen == old(r.db)
      ensures !committed ==> entry == Following(h, old(chainState.lastSequence), old(chainState.lastHash), ev, stamps[attempts])
      ensures chainState == if committed then
                              old(chainState).(lastSequence := |r.db.log|, lastHash := entry.entryHash,
                                               entriesCount := |r.db.log|)
                            else
                              old(chainState).(lastSequence := old(chainState.lastSequence) + 1, lastHash := entry.entryHash,
                                               entriesCount := old(chainState.entriesCount) + 1)
      ensures var all := old(chainEntries) + [entry];
              chainEntries == if |all| <= 1000 then all else all[|all| - 1000..]
    {
      if r == null {
        attempts, committed, copies := 0, false, 0;
        seen := Shared(None, 0, [], []);
        entry := FallBack(ev, stamps[attempts]);
      } else {
        var next;
        entry, next, committed, attempts, copies, seen := AppendWithRetries(r, ev, stamps, trips);
        entry := Settle(ev, entry, next, committed, stamps[attempts]);
      }
    }

    /** After the retry loop: adopts the acknowledged entry, or falls back. */
    method Settle(ev: Event, appended: Entry, next: ChainState, committed: bool, stamp: string) returns (entry: Entry)
      modifies this
      ensures chainEntries == Remember(old(chainEntries), entry)
      ensures if committed then
                && entry == appended
                && chainState == old(chainState).(lastSequence := next.lastSequence, lastHash := next.lastHash,
                                                  entriesCount := next.entriesCount)
              else
                && entry == Following(h, old(chainState.lastSequence), old(chainState.lastHash), ev, stamp)
                && chainState == old(chainState).(lastSequence := old(chainState.lastSequence) + 1,
                                                  lastHash := entry.entryHash,
                                                  entriesCount := old(chainState.entriesCount) + 1)
    {
      if committed {
        entry := appended;
        Acknowledge(entry, next);
      } else {
        entry := FallBack(ev, stamp);
      }
    }

    /** Brings the cached state and entries up to an acknowledged commit. */
    method Acknowledge(entry: Entry, next: ChainState)
      modifies this
      ensures chainState == old(chainState).(lastSequence := next.lastSequence, lastHash := next.lastHash,
                                             entriesCount := next.entriesCount)
      ensures chainEntries == Remember(old(chainEntries), entry)
    {
      chainState := chainState.(lastSequence := next.lastSequence, lastHash := next.lastHash,
                                entriesCount := next.entriesCount);
      Cache(entry);
    }

    /** Extends the cached chain in memory only. */
    method FallBack(ev: Event, stamp: string) returns (entry: Entry)
      modifies this
      ensures entry == Following(h, old(chainState.lastSequence), old(chainState.lastHash), ev, stamp)
      ensures chainState == old(chainState).(lastSequence := old(chainState.lastSequence) + 1, lastHash := entry.entryHash,
                                             entriesCount := old(chainState.entriesCount) + 1)
      ensures chainEntries == Remember(old(chainEntries), entry)
    {
      entry := MakeEntry(h, chainState, ev, stamp);
      chainState := NextState(chainState, entry);
      Cache(entry);
    }

    /** The retry loop. */
    method AppendWithRetries(r: RedisServer, ev: Event, stamps: seq<string>, trips: seq<Trip>)
      returns (entry: Entry, next: ChainState, committed: bool, attempts: nat, ghost copies: nat, ghost seen: Shared)
      requires r.Valid() && r.c.h == h
      requires |trips| == MAX_RETRIES && |stamps| == MAX_RETRIES + 1
      modifies r
      ensures r.Valid() && Grows(old(r.db), r.db)
      ensures attempts <= 20
      ensures forall i {:trigger Clean(trips[i])} :: 0 <= i < attempts ==> !Clean(trips[i])
      ensures if committed then attempts < 20 && Clean(trips[attempts]) else attempts == 20
      ensures Landed(old(r.db), r.db, trips, if committed then attempts + 1 else attempts, copies)
      ensures committed ==> Acked(r.c, chainState, old(r.db), seen, r.db, ev, stamps[attempts], entry, next)
      ensures committed && attempts == 0 && !trips[0].early ==> seen == old(r.db)
    {
      attempts, committed, copies := 0, false, 0;
      entry, next, seen := *, *, r.db;
      NothingLanded(r.db, trips);
      while attempts < MAX_RETRIES
        invariant attempts <= MAX_RETRIES && !committed
        invariant r.Valid() && Grows(old(r.db), r.db)
        invariant attempts == 0 ==> r.db == old(r.db)
        invariant forall i {:trigger Clean(trips[i])} :: 0 <= i < attempts ==> !Clean(trips[i])
        invariant Landed(old(r.db), r.db, trips, attempts, copies)
      {
        entry, next, committed, copies, seen := Retry(r, ev, stamps[attempts], trips, attempts, copies, old(r.db));
        if committed {
          return;
        }
        attempts := attempts + 1;
      }
    }

    /** One pass of a call that found the shared state `start` and committed `before` entries since. */
    method Retry(r: RedisServer, ev: Event, stamp: string, trips: seq<Trip>, attempt: nat, ghost before: nat,
                 ghost start: Shared)
      returns (entry: Entry, next: ChainState, done: bool, ghost copies: nat, ghost seen: Shared)
      requires r.Valid() && r.c.h == h && Grows(start, r.db)
      requires attempt < |trips| && Landed(start, r.db, trips, attempt, before)
      modifies r
      ensures r.Valid() && Grows(start, r.db)
      ensures Landed(start, r.db, trips, attempt + 1, copies)
      ensures done <==> Clean(trips[attempt])
      ensures done ==> Acked(r.c, chainState, start, seen, r.db, ev, stamp, entry, next)
      ensures !trips[attempt].early ==> seen == old(r.db)
    {
      ghost var was := r.db;
      ghost var took;
      entry, next, done, took, seen := TryAppend(r, ev, stamp, trips[attempt]);
      copies := before + if took then 1 else 0;
      StillGrows(start, was, seen, r.db);
      OneMoreLanded(start, was, seen, r.db, trips, attempt, before, entry);
    }

    /** Appends to the in-memory list and truncates it. */
    method Cache(entry: Entry)
      modifies `chainEntries
      ensures chainEntries == Remember(old(chainEntries), entry)
    {
      chainEntries := chainEntries + [entry];
      if |chainEntries| > CACHE_LIMIT {
        chainEntries := LastN(chainEntries, CACHE_LIMIT);
      }
    }

    /**
     * One pass of the retry loop: WATCH, GET, build, MULTI, EXEC. `seen` is what Redis held at WATCH; if the attempt lands,
     * its entry is the only change since then.
     */
    method TryAppend(r: RedisServer, ev: Event, stamp: string, trip: Trip)
      returns (entry: Entry, next: ChainState, done: bool, ghost took: bool, ghost seen: Shared)
      requires r.Valid() && r.c.h == h
      modifies r
      ensures r.Valid() && Grows(old(r.db), r.db) && Grows(old(r.db), seen)
      ensures done <==> Clean(trip)
      ensures took <==> Lands(trip)
      ensures took ==> Appended(r.c, chainState, seen, r.db, ev, stamp, entry) && r.db.state == Some(next)
      ensures !trip.early ==> seen == old(r.db)
      ensures !took && Quiet(trip) ==> r.db == old(r.db)
    {
      var base, version, ok;
      base, version, ok, seen := Snapshot(r, trip);
      entry := MakeEntry(h, base, ev, stamp);
      next := NextState(base, entry);
      done, took := false, false;
      if ok {
        ghost var was := r.db;
        if version == r.db.version {
          CommitIsAppended(r.c, r.db, chainState, ev, stamp);
        }
        done, took := r.Exec(version, entry, next, trip.reached, trip.answered);
        GrowsTransitive(old(r.db), was, r.db);
      }
    }

    /**
     * WATCH, then GET, with the world moving on before, in between and afterwards: if the counter still stands at
     * `version`, `base` is the current state.
     */
    method Snapshot(r: RedisServer, trip: Trip) returns (base: ChainState, version: nat, ok: bool, ghost seen: Shared)
      requires r.Valid()
      modifies r
      ensures r.Valid() && Grows(old(r.db), r.db) && Grows(old(r.db), seen)
      ensures ok <==> trip.connected && trip.read
      ensures !trip.early ==> seen == old(r.db)
      ensures Quiet(trip) ==> r.db == old(r.db)
      ensures ok ==> (version == r.db.version <==> !trip.between && !trip.late)
      ensures ok && version == r.db.version ==> r.db == seen && base == Base(r.db.state, chainState)
    {
      base, version, ok := chainState, 0, false;
      r.OthersRun(trip.early);
      seen := r.db;
      if !trip.connected {
        return;
      }
      version := r.db.version;
      r.OthersRun(trip.between);
      GrowsTransitive(old(r.db), seen, r.db);
      if !trip.read {
        return;
      }
      ok := true;
      base := Base(r.db.state, chainState);
      ghost var read := r.db;
      r.OthersRun(trip.late);
      GrowsTransitive(old(r.db), read, r.db);
      GrowsTransitive(seen, read, r.db);
    }

    /** Verifies the given entries, or the in-memory ones. */
    method Verify(entries: Option<seq<Entry>>) returns (report: Report)
      ensures var es := if entries.Some? then entries.value else chainEntries;
              && (report.valid <==> ChainOk(h, es))
              && report.breaks == Breaks(h, es)
              && report.checked == |es|
    {
      report := VerifyChain(h, if entries.Some? then entries.value else chainEntries);
    }

    method GetRecentEntries(limit: nat) returns (recent: seq<Entry>)
      ensures IsSuffix(recent, chainEntries)
      ensures 0 < limit ==> |recent| == Min(limit, |chainEntries|)
      ensures limit == 0 ==> recent == chainEntries
    {
      recent := LastN(chainEntries, limit);
    }

    /** The entries of a sequence range with their verification. */
    method ExportForCompliance(start: int, end: Option<int>) returns (entries: seq<Entry>, report: Report)
      ensures entries == Exported(chainEntries, start, end)
      ensures report.valid <==> ChainOk(h, entries)
      ensures ChainOk(h, chainEntries) && Increasing(chainEntries) ==> report.valid
    {
      entries := Exported(chainEntries, start, end);
      report := Verify(Some(entries));
      if ChainOk(h, chainEntries) && Increasing(chainEntries) {
        ExportOfChainVerifies(h, chainEntries, start, end);
        BreaksEmptyIffChainOk(h, entries);
      }
    }
  }

  /** What Redis holds at the first of two reads, with others busy before it, between them, or not. */
  ghost predicate Between(was: Shared, mid: Shared, now: Shared, early: bool, between: bool) {
    Grows(was, mid) && Grows(mid, now) && (!early ==> mid == was) && (!between ==> now == mid)
  }

  /** The entry of an event that takes the place after `sequence`. */
  function Following(h: Hasher, sequence: int, tip: Hash, ev: Event, stamp: string): Entry {
    var content := Content(sequence + 1, stamp, ev, tip);
    Entry(content, h(content))
  }

  /**
   * From `was` to `now` exactly `entry` was committed: it has the next number and is linked to the entry before it, the
   * stored state describes it. A new chain has the name of the process.
   */
  ghost predicate Appended(c: Config, own: ChainState, was: Shared, now: Shared, ev: Event, stamp: string, entry: Entry) {
    && now.log == was.log + [entry]
    && entry == Following(c.h, |was.log|, if was.log == [] then GENESIS_HASH else was.log[|was.log| - 1].entryHash, ev, stamp)
    && now.state.Some?
    && now.state.value.lastSequence == now.state.value.entriesCount == |now.log|
    && now.state.value.lastHash == entry.entryHash
    && now.state.value.chainId == (if was.state.Some? then was.state.value else own).chainId
    && now.state.value.createdAt == (if was.state.Some? then was.state.value else own).createdAt
  }

  /** The same for a call that found `start`, with the state that was stored. */
  ghost predicate Acked(c: Config, own: ChainState, start: Shared, seen: Shared, now: Shared, ev: Event, stamp: string,
                        entry: Entry, next: ChainState) {
    Grows(start, seen) && Appended(c, own, seen, now, ev, stamp, entry) && now.state == Some(next)
  }

  lemma CommitIsAppended(c: Config, sh: Shared, own: ChainState, ev: Event, stamp: string)
    requires SharedInv(c, sh)
    ensures var base := Base(sh.state, own);
            var entry := MakeEntry(c.h, base, ev, stamp);
            var now := Committed(c, sh, entry, NextState(base, entry));
            && SharedInv(c, now)
            && Grows(sh, now)
            && Appended(c, own, sh, now, ev, stamp, entry)
            && now.state == Some(NextState(base, entry))
  {
    var base := Base(sh.state, own);
    CommitExtendsChain(c, sh, own, MakeEntry(c.h, base, ev, stamp));
  }

  /**
   * What the first `n` attempts of one call committed: one entry for each that landed. If no one else committed
   * meanwhile, these are all that was appended.
   */
  ghost predicate Landed(was: Shared, now: Shared, trips: seq<Trip>, n: nat, copies: nat)
    requires n <= |trips|
  {
    && copies == Landings(trips, n)
    && |was.log| + copies <= |now.log|
    && (AllQuiet(trips, n) ==> |now.log| == |was.log| + copies)
  }

  predicate AllQuiet(trips: seq<Trip>, n: nat)
    requires n <= |trips|
  {
    forall i :: 0 <= i < n ==> Quiet(trips[i])
  }

  function Landings(trips: seq<Trip>, n: nat): nat
    requires n <= |trips|
  {
    if n == 0 then 0 else Landings(trips, n - 1) + if Lands(trips[n - 1]) then 1 else 0
  }

  lemma NothingLanded(was: Shared, trips: seq<Trip>)
    ensures Landed(was, was, trips, 0, 0)
  {
  }

  lemma OneMoreLanded(start: Shared, was: Shared, seen: Shared, now: Shared, trips: seq<Trip>, n: nat, before: nat,
                      entry: Entry)
    requires n < |trips| && Landed(start, was, trips, n, before) && Grows(was, seen) && Grows(was, now)
    requires !trips[n].early ==> seen == was
    requires if Lands(trips[n]) then now.log == seen.log + [entry] else Quiet(trips[n]) ==> now == was
    ensures Landed(start, now, trips, n + 1, before + if Lands(trips[n]) then 1 else 0)
  {
    if AllQuiet(trips, n + 1) {
      assert Quiet(trips[n]) && AllQuiet(trips, n);
    }
  }

  lemma GrowsTransitive(x: Shared, y: Shared, z: Shared)
    requires Grows(x, y) && (Grows(y, z) || z == y)
    ensures Grows(x, z)
  {
  }

  lemma StillGrows(start: Shared, was: Shared, seen: Shared, now: Shared)
    requires Grows(start, was) && Grows(was, seen) && Grows(was, now)
    ensures Grows(start, seen) && Grows(start, now)
  {
    GrowsTransitive(start, was, seen);
    GrowsTransitive(start, was, now);
  }

  /** What Redis holds at any time ends where its state says; with no state, it holds nothing. */
  lemma StoredEntriesEndAtTip(c: Config, sh: Shared)
    requires SharedInv(c, sh)
    ensures if sh.state.Some? then EndsAt(sh.entries, sh.state.value.lastHash) else sh.entries == []
  {
  }

  /** What Redis holds at any time is a chain that verifies. */
  lemma StoredEntriesVerify(c: Config, sh: Shared)
    requires SharedInv(c, sh)
    ensures Breaks(c.h, sh.entries) == []
  {
    AreNewestIff(sh.entries, sh.log, c.max);
    BreaksEmptyIffChainOk(c.h, sh.log);
    SuffixVerifies(c.h, sh.log, sh.entries);
    BreaksEmptyIffChainOk(c.h, sh.entries);
  }
}
