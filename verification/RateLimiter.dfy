/** The capped audit rate limiter for API-key authentications (core/auth.py: `_should_log_apikey_auth`). */
module RateLimiter {
  import opened Common

  // Times are seconds.
  const INTERVAL := 300
  const CAP := 5000

  predicate Eligible(m: map<string, int>, actor: string, now: int) {
    actor !in m || now - m[actor] >= INTERVAL
  }

  /** The entries whose window has not lapsed. */
  function Live(m: map<string, int>, now: int): map<string, int> {
    map k | k in m && m[k] >= now - INTERVAL :: m[k]
  }

  /** The table after one call. */
  function After(m: map<string, int>, actor: string, now: int): map<string, int> {
    if !Eligible(m, actor, now) then m
    else if |m| < CAP then m[actor := now]
    else if |Live(m, now)| >= CAP then Live(m, now)
    else Live(m, now)[actor := now]
  }

  /** Whether the call says to log. */
  predicate Logs(m: map<string, int>, actor: string, now: int) {
    Eligible(m, actor, now) && (|m| < CAP || |Live(m, now)| < CAP)
  }

  class ApikeyLimiter {
    var lastLogged: map<string, int>

    constructor ()
      ensures lastLogged == map[]
    {
      lastLogged := map[];
    }

    method ShouldLog(actor: string, now: int) returns (log: bool)
      modifies this
      ensures log <==> Logs(old(lastLogged), actor, now)
      ensures lastLogged == After(old(lastLogged), actor, now)
    {
      if actor !in lastLogged || now - lastLogged[actor] >= INTERVAL {
        if |lastLogged| >= CAP {
          Evict(now - INTERVAL);
          if |lastLogged| >= CAP {
            return false;
          }
        }
        lastLogged := lastLogged[actor := now];
        return true;
      }
      return false;
    }

    /** Collects the lapsed actors, then deletes them one by one. */
    method Evict(cutoff: int)
      modifies this
      ensures lastLogged == Live(old(lastLogged), cutoff + INTERVAL)
    {
      var expired := set k | k in lastLogged && lastLogged[k] < cutoff;
      var left := expired;
      while left != {}
        invariant left <= expired
        invariant lastLogged == map k | k in old(lastLogged) && k !in expired - left :: old(lastLogged)[k]
        decreases left
      {
        var k :| k in left;
        lastLogged := lastLogged - {k};
        left := left - {k};
      }
    }
  }

  // ---------------------------------------------------------------------------------------------
  // Runs
  // ---------------------------------------------------------------------------------------------

  /** The table after a sequence of calls, each an actor and a time. */
  function Table(calls: seq<(string, int)>): map<string, int> {
    if calls == [] then map[]
    else
      var n := |calls| - 1;
      After(Table(calls[..n]), calls[n].0, calls[n].1)
  }

  /** Call number `i` was told to log. */
  predicate LoggedAt(calls: seq<(string, int)>, i: nat)
    requires i < |calls|
  {
    Logs(Table(calls[..i]), calls[i].0, calls[i].1)
  }

  ghost predicate Monotone(calls: seq<(string, int)>) {
    forall i, j :: 0 <= i <= j < |calls| ==> calls[i].1 <= calls[j].1
  }

  lemma LiveIsNoLarger(m: map<string, int>, now: int)
    ensures |Live(m, now)| <= |m|
    ensures |Live(m, now)| == |m| ==> Live(m, now) == m
  {
    SubsetCardinality(Live(m, now).Keys, m.Keys);
    assert |Live(m, now).Keys| == |Live(m, now)| && |m.Keys| == |m|;
  }

  lemma AfterWithinCap(m: map<string, int>, actor: string, now: int)
    requires |m| <= CAP
    ensures |After(m, actor, now)| <= CAP
  {
    LiveIsNoLarger(m, now);
    assert |m[actor := now].Keys| <= |m.Keys| + 1;
    assert |Live(m, now)[actor := now].Keys| <= |Live(m, now).Keys| + 1;
  }

  /** In every run the table holds at most 5000 actors. */
  lemma {:induction false} NeverOverCap(calls: seq<(string, int)>)
    ensures |Table(calls)| <= 5000
  {
    if calls != [] {
      var n := |calls| - 1;
      NeverOverCap(calls[..n]);
      AfterWithinCap(Table(calls[..n]), calls[n].0, calls[n].1);
    }
  }

  /** In every run an eligible actor is refused exactly when 5000 entries are all still inside their windows. */
  lemma RefusedOnlyWhenFull(calls: seq<(string, int)>, actor: string, now: int)
    ensures Eligible(Table(calls), actor, now) ==>
              (!Logs(Table(calls), actor, now) <==>
                 |Table(calls)| == 5000 && forall k :: k in Table(calls) ==> Table(calls)[k] >= now - 300)
  {
    NeverOverCap(calls);
    var m := Table(calls);
    LiveIsNoLarger(m, now);
    if forall k :: k in m ==> m[k] >= now - INTERVAL {
      assert Live(m, now) == m;
    }
  }

  /** A logged call is either still remembered or more than an interval in the past, so forgetting it is harmless. */
  lemma {:induction false} LoggedIsRememberedOrOld(calls: seq<(string, int)>, i: nat)
    requires Monotone(calls) && i < |calls| && LoggedAt(calls, i)
    ensures var (actor, time) := calls[i];
            || (actor in Table(calls) && time <= Table(calls)[actor])
            || time < calls[|calls| - 1].1 - INTERVAL
    decreases |calls|
  {
    var n := |calls| - 1;
    if i < n {
      var before := calls[..n];
      assert before[..i] == calls[..i];
      assert Monotone(before) by {
        assert forall k :: 0 <= k < n ==> before[k] == calls[k];
      }
      LoggedIsRememberedOrOld(before, i);
    }
  }

  /** In every run two logged successes of one actor are at least five minutes apart, despite eviction. */
  lemma LogsAreSpaced(calls: seq<(string, int)>, i: nat, j: nat)
    requires Monotone(calls) && i < j < |calls| && calls[i].0 == calls[j].0
    requires LoggedAt(calls, i) && LoggedAt(calls, j)
    ensures calls[j].1 - calls[i].1 >= 300
  {
    var before := calls[..j];
    assert before[..i] == calls[..i];
    assert Monotone(before) by {
      assert forall k :: 0 <= k < j ==> before[k] == calls[k];
    }
    LoggedIsRememberedOrOld(before, i);
  }

  // ---------------------------------------------------------------------------------------------
  // Who is logged, in terms of the calls alone
  // ---------------------------------------------------------------------------------------------

  lemma MonotonePrefix(calls: seq<(string, int)>, n: nat)
    requires Monotone(calls) && n <= |calls|
    ensures Monotone(calls[..n])
  {
    assert forall k :: 0 <= k < n ==> calls[..n][k] == calls[k];
  }

  /** Call number `j` is a logged call of the actor at that time. */
  predicate LoggedFor(calls: seq<(string, int)>, j: nat, actor: string, time: int)
    requires j < |calls|
  {
    calls[j] == (actor, time) && LoggedAt(calls, j)
  }

  lemma LoggedForPrefix(calls: seq<(string, int)>, n: nat, j: nat, actor: string, time: int)
    requires j < n <= |calls|
    ensures LoggedFor(calls[..n], j, actor, time) <==> LoggedFor(calls, j, actor, time)
  {
    assert calls[..n][..j] == calls[..j];
  }

  /** What is remembered of an actor is the time of one of its logged calls. */
  lemma {:induction false} RememberedIsLogged(calls: seq<(string, int)>, actor: string) returns (j: nat)
    requires actor in Table(calls)
    ensures j < |calls| && LoggedFor(calls, j, actor, Table(calls)[actor])
  {
    var n := |calls| - 1;
    if calls[n].0 == actor && LoggedAt(calls, n) {
      j := n;
    } else {
      j := RememberedIsLogged(calls[..n], actor);
      LoggedForPrefix(calls, n, j, actor, Table(calls)[actor]);
    }
  }

  /** The actors with a logged call in the last 300 seconds. */
  ghost function RecentActors(calls: seq<(string, int)>, now: int): set<string> {
    set j: nat | j < |calls| && LoggedAt(calls, j) && calls[j].1 >= now - 300 :: calls[j].0
  }

  ghost predicate Until(calls: seq<(string, int)>, now: int) {
    Monotone(calls) && (calls != [] ==> calls[|calls| - 1].1 <= now)
  }

  lemma LiveAreRecent(calls: seq<(string, int)>, now: int)
    requires Until(calls, now)
    ensures Live(Table(calls), now).Keys == RecentActors(calls, now)
  {
    forall actor | actor in Live(Table(calls), now)
      ensures actor in RecentActors(calls, now)
    {
      var j := RememberedIsLogged(calls, actor);
    }
    forall j: nat | j < |calls| && LoggedAt(calls, j) && calls[j].1 >= now - 300
      ensures calls[j].0 in Live(Table(calls), now)
    {
      LoggedIsRememberedOrOld(calls, j);
    }
  }

  lemma EligibleIff(calls: seq<(string, int)>, actor: string, now: int)
    requires Until(calls, now)
    ensures Eligible(Table(calls), actor, now) <==>
              forall j: nat :: j < |calls| && calls[j].0 == actor && LoggedAt(calls, j) ==> now - calls[j].1 >= 300
  {
    if actor in Table(calls) {
      var j := RememberedIsLogged(calls, actor);
    }
    forall j: nat | j < |calls| && calls[j].0 == actor && LoggedAt(calls, j)
      ensures now - calls[j].1 < 300 ==> actor in Table(calls) && calls[j].1 <= Table(calls)[actor]
    {
      LoggedIsRememberedOrOld(calls, j);
    }
  }

  /**
   * In every run a call is logged exactly if no call of that actor was logged in the last 300 seconds and fewer than
   * 5000 actors had one: an actor that waited is logged again, whatever was evicted, unless the table is full.
   */
  lemma LoggedIff(calls: seq<(string, int)>, i: nat)
    requires Monotone(calls) && i < |calls|
    ensures var (actor, now) := calls[i];
            LoggedAt(calls, i) <==>
              && (forall j: nat :: j < i && calls[j].0 == actor && LoggedAt(calls, j) ==> now - calls[j].1 >= 300)
              && |RecentActors(calls[..i], now)| < 5000
  {
    var (actor, now) := calls[i];
    var before := calls[..i];
    MonotonePrefix(calls, i);
    EligibleIff(before, actor, now);
    LiveAreRecent(before, now);
    LiveIsNoLarger(Table(before), now);
    assert |Live(Table(before), now).Keys| == |Live(Table(before), now)|;
    forall j: nat | j < i
      ensures before[j] == calls[j] && (LoggedAt(before, j) <==> LoggedAt(calls, j))
    {
      LoggedForPrefix(calls, i, j, calls[j].0, calls[j].1);
    }
  }
}
