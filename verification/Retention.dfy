/** The backup retention pass (agents/backup_agent.py: `apply_retention_policy`). */
module Retention {
  import opened Common

  datatype Backup = Backup(path: string, created: int, size: nat)

  predicate NewestFirst(a: Backup, b: Backup) {
    a.created >= b.created
  }

  /** Two files never share a path. */
  ghost predicate DistinctPaths(bs: seq<Backup>) {
    forall i, j :: 0 <= i < j < |bs| ==> bs[i].path != bs[j].path
  }

  /** How many leading backups of a newest-first list are not older than the cutoff. */
  function FreshCount(sorted: seq<Backup>, cutoff: int): (n: nat)
    ensures n <= |sorted|
    ensures forall i :: 0 <= i < n ==> sorted[i].created >= cutoff
    ensures n < |sorted| ==> sorted[n].created < cutoff
  {
    if sorted == [] || sorted[0].created < cutoff then 0 else 1 + FreshCount(sorted[1..], cutoff)
  }

  function TotalSize(bs: seq<Backup>): nat {
    if bs == [] then 0 else bs[0].size + TotalSize(bs[1..])
  }

  lemma {:induction false} TotalSizeAppend(a: seq<Backup>, b: seq<Backup>)
    ensures TotalSize(a + b) == TotalSize(a) + TotalSize(b)
  {
    if a == [] {
      assert a + b == b;
    } else {
      assert (a + b)[1..] == a[1..] + b;
      TotalSizeAppend(a[1..], b);
    }
  }

  lemma MultisetWithout(bs: seq<Backup>, i: nat)
    requires i < |bs|
    ensures multiset(bs[..i] + bs[i + 1..]) == multiset(bs) - multiset{bs[i]}
  {
    assert bs == bs[..i] + [bs[i]] + bs[i + 1..];
  }

  lemma FirstInPermutation(a: seq<Backup>, b: seq<Backup>) returns (i: nat)
    requires a != [] && multiset(a) == multiset(b)
    ensures i < |b| && b[i] == a[0] && multiset(a[1..]) == multiset(b[..i] + b[i + 1..])
  {
    assert a[0] in multiset(b);
    i :| 0 <= i < |b| && b[i] == a[0];
    assert multiset(a[1..]) == multiset(a) - multiset{a[0]} by {
      assert a == [a[0]] + a[1..];
    }
    assert multiset(b[..i] + b[i + 1..]) == multiset(b) - multiset{b[i]} by {
      MultisetWithout(b, i);
    }
  }

  lemma SizeWithout(bs: seq<Backup>, i: nat)
    requires i < |bs|
    ensures TotalSize(bs) == bs[i].size + TotalSize(bs[..i] + bs[i + 1..])
  {
    var a, b := bs[..i], bs[i + 1..];
    TotalSizeAppend(a, [bs[i]] + b);
    TotalSizeAppend([bs[i]], b);
    TotalSizeAppend(a, b);
    assert bs == a + ([bs[i]] + b);
  }

  lemma {:induction false} TotalSizeOfPermutation(a: seq<Backup>, b: seq<Backup>)
    requires multiset(a) == multiset(b)
    ensures TotalSize(a) == TotalSize(b)
    decreases |a|
  {
    if a == [] {
      assert |multiset(b)| == 0;
    } else {
      var i := FirstInPermutation(a, b);
      TotalSizeOfPermutation(a[1..], b[..i] + b[i + 1..]);
      SizeWithout(b, i);
    }
  }

  // ---------------------------------------------------------------------------------------------
  // Selection
  // ---------------------------------------------------------------------------------------------

  /** The two selection loops over the sorted list: everything too old, then everything beyond the maximal count. */
  method Select(sorted: seq<Backup>, maxCount: nat, cutoff: int) returns (toDelete: seq<Backup>)
    requires Ordered(sorted, NewestFirst) && DistinctPaths(sorted)
    ensures var young := FreshCount(sorted, cutoff);
            toDelete == sorted[young..] + if maxCount < young then sorted[maxCount..young] else []
  {
    var tooOld := SelectOld(sorted, cutoff);
    toDelete := SelectExcess(sorted, maxCount, FreshCount(sorted, cutoff), tooOld);
  }

  method SelectOld(sorted: seq<Backup>, cutoff: int) returns (tooOld: seq<Backup>)
    requires Ordered(sorted, NewestFirst)
    ensures tooOld == sorted[FreshCount(sorted, cutoff)..]
  {
    ghost var young := FreshCount(sorted, cutoff);
    tooOld := [];
    for i := 0 to |sorted|
      invariant tooOld == if i <= young then [] else sorted[young..i]
    {
      OldFromFresh(sorted, cutoff, i);
      if sorted[i].created < cutoff {
        assert sorted[young..i + 1] == sorted[young..i] + [sorted[i]];
        tooOld := tooOld + [sorted[i]];
      }
    }
  }

  /** Adds what lies beyond the maximal count and was not selected before. */
  method SelectExcess(sorted: seq<Backup>, maxCount: nat, ghost young: nat, selected: seq<Backup>)
    returns (toDelete: seq<Backup>)
    requires DistinctPaths(sorted) && young <= |sorted| && selected == sorted[young..]
    ensures toDelete == selected + if maxCount < young then sorted[maxCount..young] else []
  {
    toDelete := selected;
    var i := maxCount;
    while i < |sorted|
      invariant maxCount <= i
      invariant toDelete == selected + if maxCount < young then sorted[maxCount..Min(i, young)] else []
    {
      KnownIffOld(sorted, selected, maxCount, young, i);
      if sorted[i] !in toDelete {
        toDelete := toDelete + [sorted[i]];
      }
      i := i + 1;
    }
  }

  lemma KnownIffOld(sorted: seq<Backup>, selected: seq<Backup>, maxCount: nat, young: nat, i: nat)
    requires DistinctPaths(sorted) && young <= |sorted| && selected == sorted[young..] && maxCount <= i < |sorted|
    ensures sorted[i] in selected + (if maxCount < young then sorted[maxCount..Min(i, young)] else []) <==> young <= i
  {
    if young <= i {
      assert selected[i - young] == sorted[i];
    }
  }

  lemma OldFromFresh(sorted: seq<Backup>, cutoff: int, i: nat)
    requires Ordered(sorted, NewestFirst) && i < |sorted|
    ensures sorted[i].created < cutoff <==> FreshCount(sorted, cutoff) <= i
  {
    var young := FreshCount(sorted, cutoff);
    if young < i {
      assert NewestFirst(sorted[young], sorted[i]);
    }
  }

  // ---------------------------------------------------------------------------------------------
  // The pass
  // ---------------------------------------------------------------------------------------------

  datatype Report = Report(deletedCount: nat, freedBytes: nat, remainingCount: int, errors: seq<string>)

  /** How many backups the policy keeps: the newest `maxCount` that are not older than the cutoff. */
  function KeptCount(backups: seq<Backup>, maxCount: nat, cutoff: int): nat {
    var young := FreshCount(Sort(backups, NewestFirst), cutoff);
    if maxCount < young then maxCount else young
  }

  /** The backups unlinked successfully, in the order they were tried; `stuck` are the paths that cannot be deleted. */
  function Unlinked(toDelete: seq<Backup>, stuck: set<string>): seq<Backup> {
    if toDelete == [] then []
    else
      var n := |toDelete| - 1;
      Unlinked(toDelete[..n], stuck) + if toDelete[n].path in stuck then [] else [toDelete[n]]
  }

  lemma {:induction false} UnlinkedAll(toDelete: seq<Backup>)
    ensures Unlinked(toDelete, {}) == toDelete
  {
    if toDelete != [] {
      UnlinkedAll(toDelete[..|toDelete| - 1]);
    }
  }

  ghost predicate HasPath(bs: seq<Backup>, path: string) {
    exists b :: b in bs && b.path == path
  }

  /** Deleted is, as often as selected, exactly what is selected and not stuck. */
  lemma {:induction false} UnlinkedIsUnstuck(toDelete: seq<Backup>, stuck: set<string>, b: Backup)
    ensures multiset(Unlinked(toDelete, stuck))[b] == if b.path in stuck then 0 else multiset(toDelete)[b]
  {
    if toDelete != [] {
      var n := |toDelete| - 1;
      UnlinkedIsUnstuck(toDelete[..n], stuck, b);
      assert toDelete == toDelete[..n] + [toDelete[n]];
    }
  }

  method ApplyRetention(backups: seq<Backup>, maxCount: nat, cutoff: int, stuck: set<string>)
    returns (r: Report, deleted: seq<Backup>)
    requires DistinctPaths(backups)
    ensures exists toDelete :: (
      && multiset(toDelete) == multiset(Sort(backups, NewestFirst)[KeptCount(backups, maxCount, cutoff)..])
      && deleted == Unlinked(toDelete, stuck))
    ensures var rest := Sort(backups, NewestFirst)[KeptCount(backups, maxCount, cutoff)..];
            && (forall b :: multiset(deleted)[b] == if b.path in stuck then 0 else multiset(rest)[b])
            && (forall p :: p in r.errors <==> p in stuck && HasPath(rest, p))
            && |deleted| + |r.errors| == |rest|
    ensures r.deletedCount == |deleted| && r.freedBytes == TotalSize(deleted)
    ensures r.remainingCount == |backups| - |deleted|
    ensures stuck == {} ==>
      && r.errors == []
      && multiset(deleted) == multiset(Sort(backups, NewestFirst)[KeptCount(backups, maxCount, cutoff)..])
  {
    var sorted := Sort(backups, NewestFirst);
    SortOrdered(backups, NewestFirst);
    SortKeepsPaths(backups);
    var toDelete := Select(sorted, maxCount, cutoff);
    SelectedIsTail(sorted, maxCount, FreshCount(sorted, cutoff));
    var freed, errors;
    deleted, freed, errors := Unlink(toDelete, stuck);
    UnlinkedAll(toDelete);
    forall b
      ensures multiset(deleted)[b] == if b.path in stuck then 0 else multiset(toDelete)[b]
    {
      UnlinkedIsUnstuck(toDelete, stuck, b);
    }
    SameMembers(toDelete, sorted[KeptCount(backups, maxCount, cutoff)..]);
    r := Report(|deleted|, freed, |backups| - |deleted|, errors);
  }

  /** The deletion loop: a file that cannot be unlinked is reported and skipped. */
  method Unlink(toDelete: seq<Backup>, stuck: set<string>) returns (deleted: seq<Backup>, freed: nat, errors: seq<string>)
    ensures deleted == Unlinked(toDelete, stuck) && freed == TotalSize(deleted)
    ensures |deleted| + |errors| == |toDelete|
    ensures forall p :: p in errors <==> p in stuck && HasPath(toDelete, p)
  {
    deleted, freed, errors := [], 0, [];
    for i := 0 to |toDelete|
      invariant deleted == Unlinked(toDelete[..i], stuck) && freed == TotalSize(deleted)
      invariant |deleted| + |errors| == i
      invariant forall p :: p in errors <==> p in stuck && HasPath(toDelete[..i], p)
    {
      assert toDelete[..i + 1][..i] == toDelete[..i];
      OneMorePath(toDelete, i);
      if toDelete[i].path in stuck {
        errors := errors + [toDelete[i].path];
      } else {
        TotalSizeAppend(deleted, [toDelete[i]]);
        deleted := deleted + [toDelete[i]];
        freed := freed + toDelete[i].size;
      }
    }
    assert toDelete[..|toDelete|] == toDelete;
  }

  lemma OneMorePath(bs: seq<Backup>, i: nat)
    requires i < |bs|
    ensures forall p :: HasPath(bs[..i + 1], p) <==> bs[i].path == p || HasPath(bs[..i], p)
  {
    assert bs[..i + 1] == bs[..i] + [bs[i]];
    assert bs[i] in bs[..i + 1];
    forall p
      ensures HasPath(bs[..i + 1], p) <==> bs[i].path == p || HasPath(bs[..i], p)
    {
      if b :| b in bs[..i + 1] && b.path == p {
        assert b == bs[i] || b in bs[..i];
      }
      if b :| b in bs[..i] && b.path == p {
        assert b in bs[..i + 1];
      }
    }
  }

  lemma SameMembers(a: seq<Backup>, b: seq<Backup>)
    requires multiset(a) == multiset(b)
    ensures |a| == |b| && forall x :: x in a <==> x in b
  {
    assert |multiset(a)| == |a| && |multiset(b)| == |b|;
    forall x
      ensures x in a <==> x in b
    {
      assert x in a <==> x in multiset(a);
    }
  }

  lemma SelectedIsTail(sorted: seq<Backup>, maxCount: nat, young: nat)
    requires young <= |sorted|
    ensures var kept := if maxCount < young then maxCount else young;
            multiset(sorted[young..] + if maxCount < young then sorted[maxCount..young] else []) == multiset(sorted[kept..])
  {
    if maxCount < young {
      assert sorted[maxCount..] == sorted[maxCount..young] + sorted[young..];
    }
  }

  lemma TwiceCountsTwice(bs: seq<Backup>, i: nat, j: nat)
    requires i < j < |bs| && bs[i] == bs[j]
    ensures multiset(bs)[bs[i]] >= 2
  {
    assert bs == bs[..i] + [bs[i]] + bs[i + 1..j] + [bs[j]] + bs[j + 1..];
  }

  lemma OnceInDistinct(bs: seq<Backup>, j: nat)
    requires DistinctPaths(bs) && j < |bs|
    ensures multiset(bs)[bs[j]] == 1
  {
    assert bs == bs[..j] + [bs[j]] + bs[j + 1..];
    assert bs[j] !in bs[..j] && bs[j] !in bs[j + 1..];
  }

  /** Distinctness of paths depends only on which backups occur how often. */
  lemma DistinctIsMultiset(bs: seq<Backup>)
    ensures DistinctPaths(bs) <==>
      && (forall x :: multiset(bs)[x] <= 1)
      && (forall x, y :: x in multiset(bs) && y in multiset(bs) && x.path == y.path ==> x == y)
  {
    if DistinctPaths(bs) {
      forall x | x in multiset(bs)
        ensures multiset(bs)[x] <= 1
      {
        var j :| 0 <= j < |bs| && bs[j] == x;
        OnceInDistinct(bs, j);
      }
    } else {
      var i, j :| 0 <= i < j < |bs| && bs[i].path == bs[j].path;
      assert bs[i] in multiset(bs) && bs[j] in multiset(bs);
      if bs[i] == bs[j] {
        TwiceCountsTwice(bs, i, j);
      }
    }
  }

  lemma SortKeepsPaths(backups: seq<Backup>)
    requires DistinctPaths(backups)
    ensures DistinctPaths(Sort(backups, NewestFirst))
  {
    DistinctIsMultiset(backups);
    DistinctIsMultiset(Sort(backups, NewestFirst));
  }

  // ---------------------------------------------------------------------------------------------
  // What the policy guarantees when every unlink succeeds
  // ---------------------------------------------------------------------------------------------

  function Kept(backups: seq<Backup>, maxCount: nat, cutoff: int): seq<Backup> {
    Sort(backups, NewestFirst)[..KeptCount(backups, maxCount, cutoff)]
  }

  /** The files deleted when every unlink succeeds, in some order. */
  ghost predicate DeletesRest(backups: seq<Backup>, maxCount: nat, cutoff: int, deleted: seq<Backup>) {
    multiset(deleted) == multiset(Sort(backups, NewestFirst)[KeptCount(backups, maxCount, cutoff)..])
  }

  /** Kept and deleted split the backups, and so do their counts and bytes; no more than the maximum and nothing too old is kept. */
  lemma RetentionConserves(backups: seq<Backup>, maxCount: nat, cutoff: int, deleted: seq<Backup>)
    requires DeletesRest(backups, maxCount, cutoff, deleted)
    ensures var kept := Kept(backups, maxCount, cutoff);
            && multiset(kept) + multiset(deleted) == multiset(backups)
            && |kept| + |deleted| == |backups|
            && TotalSize(kept) + TotalSize(deleted) == TotalSize(backups)
            && |kept| <= maxCount
            && (forall k :: k in kept ==> k.created >= cutoff)
  {
    var sorted := Sort(backups, NewestFirst);
    var n := KeptCount(backups, maxCount, cutoff);
    assert sorted == sorted[..n] + sorted[n..];
    TotalSizeAppend(sorted[..n], sorted[n..]);
    TotalSizeOfPermutation(deleted, sorted[n..]);
    TotalSizeOfPermutation(sorted, backups);
    assert |multiset(deleted)| == |deleted| && |multiset(sorted[n..])| == |sorted| - n;
  }

  /** The first `n` of a newest-first list are no older than what follows. */
  lemma CutKeepsNewest(sorted: seq<Backup>, n: nat, j: nat)
    requires Ordered(sorted, NewestFirst) && n <= j < |sorted|
    ensures forall k :: k in sorted[..n] ==> k.created >= sorted[j].created
  {
    forall k | k in sorted[..n]
      ensures k.created >= sorted[j].created
    {
      var i :| 0 <= i < n && sorted[i] == k;
      assert NewestFirst(sorted[i], sorted[j]);
    }
  }

  lemma TailOnce(sorted: seq<Backup>, n: nat, j: nat)
    requires DistinctPaths(sorted) && n <= j < |sorted|
    ensures multiset(sorted[n..])[sorted[j]] == 1
  {
    assert forall i :: 0 <= i < |sorted| - n ==> sorted[n..][i] == sorted[n + i];
    OnceInDistinct(sorted[n..], j - n);
  }

  lemma PlaceInTail(sorted: seq<Backup>, n: nat, deleted: seq<Backup>, d: Backup) returns (j: nat)
    requires n <= |sorted| && multiset(deleted) == multiset(sorted[n..]) && d in deleted
    ensures n <= j < |sorted| && sorted[j] == d
  {
    assert d in multiset(sorted[n..]);
    var i :| 0 <= i < |sorted| - n && sorted[n..][i] == d;
    j := n + i;
  }

  /**
   * No deleted file is newer than a kept one, a file that is not too old goes only when the maximum stays, and no file
   * is deleted twice.
   */
  lemma RetentionKeepsNewest(backups: seq<Backup>, maxCount: nat, cutoff: int, deleted: seq<Backup>, d: Backup)
    requires DistinctPaths(backups) && DeletesRest(backups, maxCount, cutoff, deleted) && d in deleted
    ensures var kept := Kept(backups, maxCount, cutoff);
            && (forall k :: k in kept ==> k.created >= d.created)
            && (d.created >= cutoff ==> |kept| == maxCount)
            && multiset(deleted)[d] == 1
  {
    var sorted, n := Sort(backups, NewestFirst), KeptCount(backups, maxCount, cutoff);
    var j := PlaceInTail(sorted, n, deleted, d);
    SortOrdered(backups, NewestFirst);
    SortKeepsPaths(backups);
    CutKeepsNewest(sorted, n, j);
    TailOnce(sorted, n, j);
    OldFromFresh(sorted, cutoff, j);
  }
}
