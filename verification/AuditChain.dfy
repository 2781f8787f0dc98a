/** The hash chain of the audit log and its verifier (core/audit.py). */
module AuditChain {
  import opened Common

  type Hash = string

  /** What a caller of the logger supplies; `details` stands for the canonical JSON text. */
  datatype Event = Event(
    eventType: string,
    message: string,
    actor: string,
    actorType: string,
    resource: Option<string>,
    details: string
  )

  /** Everything the entry hash covers. */
  datatype Content = Content(sequence: int, timestamp: string, event: Event, previousHash: Hash)

  datatype Entry = Entry(content: Content, entryHash: Hash)

  /** SHA-256 over the canonical JSON of the content; the theorems hold for every such function. */
  type Hasher = Content -> Hash

  function Repeat(c: char, n: nat): string {
    if n == 0 then "" else [c] + Repeat(c, n - 1)
  }

  const GENESIS_HASH: Hash := Repeat('0', 64)

  lemma {:induction false} RepeatIs(c: char, n: nat)
    ensures |Repeat(c, n)| == n && forall i :: 0 <= i < n ==> Repeat(c, n)[i] == c
  {
    if n > 0 {
      RepeatIs(c, n - 1);
    }
  }

  lemma GenesisIsZeros()
    ensures |GENESIS_HASH| == 64 && forall i :: 0 <= i < 64 ==> GENESIS_HASH[i] == '0'
  {
    RepeatIs('0', 64);
  }

  datatype Break =
    | HashMismatch(sequence: int, expected: Hash, computed: Hash)
    | ChainBreak(sequence: int, expectedPrevious: Hash, actualPrevious: Hash)

  datatype Report = Report(
    valid: bool,
    checked: nat,
    breaks: seq<Break>,
    first: Option<int>,
    last: Option<int>
  )

  // ---------------------------------------------------------------------------------------------
  // What verification means
  // ---------------------------------------------------------------------------------------------

  predicate HashOk(h: Hasher, e: Entry) {
    e.entryHash == h(e.content)
  }

  predicate LinkOk(es: seq<Entry>, i: int)
    requires 0 < i < |es|
  {
    es[i].content.previousHash == es[i - 1].entryHash
  }

  ghost predicate ChainOk(h: Hasher, es: seq<Entry>) {
    && (forall i {:trigger HashOk(h, es[i])} :: 0 <= i < |es| ==> HashOk(h, es[i]))
    && (forall i :: 0 < i < |es| ==> LinkOk(es, i))
  }

  /** The break position `i` adds to the report, if any; a bad hash hides the link check. */
  function BreakAt(h: Hasher, es: seq<Entry>, i: nat): seq<Break>
    requires i < |es|
  {
    if !HashOk(h, es[i]) then
      [HashMismatch(es[i].content.sequence, es[i].entryHash, h(es[i].content))]
    else if 0 < i && !LinkOk(es, i) then
      [ChainBreak(es[i].content.sequence, es[i - 1].entryHash, es[i].content.previousHash)]
    else
      []
  }

  function BreaksUpTo(h: Hasher, es: seq<Entry>, n: nat): seq<Break>
    requires n <= |es|
  {
    if n == 0 then [] else BreaksUpTo(h, es, n - 1) + BreakAt(h, es, n - 1)
  }

  /** All breaks, in chain order. */
  function Breaks(h: Hasher, es: seq<Entry>): seq<Break> {
    BreaksUpTo(h, es, |es|)
  }

  lemma {:induction false} CleanPositionsNoBreaks(h: Hasher, es: seq<Entry>, n: nat)
    requires n <= |es| && forall i: nat :: i < n ==> BreakAt(h, es, i) == []
    ensures BreaksUpTo(h, es, n) == []
  {
    if n > 0 {
      CleanPositionsNoBreaks(h, es, n - 1);
    }
  }

  lemma {:induction false} NoBreaksCleanPosition(h: Hasher, es: seq<Entry>, n: nat, i: nat)
    requires i < n <= |es| && BreaksUpTo(h, es, n) == []
    ensures BreakAt(h, es, i) == []
  {
    ConcatEmpty(BreaksUpTo(h, es, n - 1), BreakAt(h, es, n - 1));
    if i < n - 1 {
      NoBreaksCleanPosition(h, es, n - 1, i);
    }
  }

  /** The report is empty exactly when every hash and every link is right. */
  lemma BreaksEmptyIffChainOk(h: Hasher, es: seq<Entry>)
    ensures Breaks(h, es) == [] <==> ChainOk(h, es)
  {
    if Breaks(h, es) == [] {
      forall i | 0 <= i < |es|
        ensures HashOk(h, es[i]) && (0 < i ==> LinkOk(es, i))
      {
        NoBreaksCleanPosition(h, es, |es|, i);
      }
    }
    if ChainOk(h, es) {
      CleanPositionsNoBreaks(h, es, |es|);
    }
  }

  /** The break that position `i` causes: a wrong hash, or else a wrong link. */
  ghost predicate Describes(h: Hasher, es: seq<Entry>, i: nat, b: Break)
    requires i < |es|
  {
    var e := es[i];
    if e.entryHash != h(e.content) then
      b == HashMismatch(e.content.sequence, e.entryHash, h(e.content))
    else
      && 0 < i
      && e.content.previousHash != es[i - 1].entryHash
      && b == ChainBreak(e.content.sequence, es[i - 1].entryHash, e.content.previousHash)
  }

  /** The entry has the wrong hash, or names another hash than that of the entry before it. */
  predicate Bad(h: Hasher, es: seq<Entry>, i: nat)
    requires i < |es|
  {
    es[i].entryHash != h(es[i].content) || (0 < i && es[i].content.previousHash != es[i - 1].entryHash)
  }

  /** The breaks of the first `n` entries are, in order, those of the bad positions `at` among them. */
  ghost predicate AreBreaksOf(h: Hasher, es: seq<Entry>, n: nat, at: seq<nat>, breaks: seq<Break>)
    requires n <= |es|
  {
    && |at| == |breaks|
    && (forall j, k :: 0 <= j < k < |at| ==> at[j] < at[k])
    && (forall k {:trigger at[k]} :: 0 <= k < |at| ==> at[k] < n && Describes(h, es, at[k], breaks[k]))
    && (forall i: nat {:trigger Bad(h, es, i)} :: i < n && Bad(h, es, i) ==> i in at)
  }

  lemma {:induction false} BreaksAtBadPositions(h: Hasher, es: seq<Entry>, n: nat) returns (at: seq<nat>)
    requires n <= |es|
    ensures AreBreaksOf(h, es, n, at, BreaksUpTo(h, es, n))
  {
    at := [];
    if n > 0 {
      var before := BreaksAtBadPositions(h, es, n - 1);
      if Bad(h, es, n - 1) {
        at := before + [n - 1];
        BadPositionBreaks(h, es, n - 1);
        OneMoreBad(h, es, n - 1, before, BreaksUpTo(h, es, n - 1), BreakAt(h, es, n - 1)[0]);
      } else {
        at := before;
        assert BreakAt(h, es, n - 1) == [];
      }
    }
  }

  lemma BadPositionBreaks(h: Hasher, es: seq<Entry>, i: nat)
    requires i < |es| && Bad(h, es, i)
    ensures |BreakAt(h, es, i)| == 1 && Describes(h, es, i, BreakAt(h, es, i)[0])
  {
    assert 0 < i ==> (LinkOk(es, i) <==> es[i].content.previousHash == es[i - 1].entryHash);
  }

  lemma OneMoreBad(h: Hasher, es: seq<Entry>, n: nat, at: seq<nat>, breaks: seq<Break>, b: Break)
    requires n < |es| && AreBreaksOf(h, es, n, at, breaks) && Describes(h, es, n, b)
    ensures AreBreaksOf(h, es, n + 1, at + [n], breaks + [b])
  {
    var at' := at + [n];
    forall i: nat | i < n + 1 && Bad(h, es, i)
      ensures i in at'
    {
      assert at'[|at|] == n;
      assert i < n ==> i in at;
    }
  }

  // ---------------------------------------------------------------------------------------------
  // The verifier loop
  // ---------------------------------------------------------------------------------------------

  method VerifyChain(h: Hasher, es: seq<Entry>) returns (r: Report)
    ensures r.valid <==> ChainOk(h, es)
    ensures r.breaks == Breaks(h, es)
    ensures exists at: seq<nat> :: AreBreaksOf(h, es, |es|, at, r.breaks)
    ensures r.checked == |es|
    ensures r.first == (if es == [] then None else Some(es[0].content.sequence))
    ensures r.last == (if es == [] then None else Some(es[|es| - 1].content.sequence))
  {
    BreaksEmptyIffChainOk(h, es);
    ghost var at := BreaksAtBadPositions(h, es, |es|);
    assert AreBreaksOf(h, es, |es|, at, Breaks(h, es));
    if es == [] {
      return Report(true, 0, [], None, None);
    }
    var breaks: seq<Break> := [];
    for i := 0 to |es|
      invariant breaks == BreaksUpTo(h, es, i)
    {
      var entry := es[i];
      var computed := h(entry.content);
      if computed != entry.entryHash {
        breaks := breaks + [HashMismatch(entry.content.sequence, entry.entryHash, computed)];
        continue;
      }
      if i > 0 {
        var prev := es[i - 1];
        if entry.content.previousHash != prev.entryHash {
          breaks := breaks + [ChainBreak(entry.content.sequence, prev.entryHash, entry.content.previousHash)];
        }
      }
    }
    r := Report(|breaks| == 0, |es|, breaks, Some(es[0].content.sequence), Some(es[|es| - 1].content.sequence));
  }

  // ---------------------------------------------------------------------------------------------
  // Tamper evidence
  // ---------------------------------------------------------------------------------------------

  /** Two different contents with one hash. */
  predicate Collides(h: Hasher, a: Content, b: Content) {
    a != b && h(a) == h(b)
  }

  ghost predicate CollisionBetween(h: Hasher, a: seq<Entry>, b: seq<Entry>) {
    exists i, j :: 0 <= i < |a| && 0 <= j < |b| && Collides(h, a[i].content, b[j].content)
  }

  ghost predicate IsSuffix(a: seq<Entry>, b: seq<Entry>) {
    |a| <= |b| && b[|b| - |a|..] == a
  }

  ghost predicate SameTip(a: seq<Entry>, b: seq<Entry>) {
    a != [] && b != [] && a[|a| - 1].entryHash == b[|b| - 1].entryHash
  }

  /** Without a collision, equal tips force equal entries `k` places back, for every `k` both lists reach. */
  lemma {:induction false} AgreeFromTip(h: Hasher, a: seq<Entry>, b: seq<Entry>, k: nat)
    requires ChainOk(h, a) && ChainOk(h, b) && SameTip(a, b) && !CollisionBetween(h, a, b)
    requires k < |a| && k < |b|
    ensures a[|a| - 1 - k] == b[|b| - 1 - k]
  {
    var m, n := |a| - 1 - k, |b| - 1 - k;
    if k > 0 {
      AgreeFromTip(h, a, b, k - 1);
      assert LinkOk(a, m + 1) && LinkOk(b, n + 1);
    }
    assert HashOk(h, a[m]) && HashOk(h, b[n]);
    assert !Collides(h, a[m].content, b[n].content);
  }

  /**
   * Two verified lists with the same tip hash agree all the way back to the start of the shorter one,
   * unless they exhibit a hash collision.
   */
  lemma PinnedTipFixesHistory(h: Hasher, a: seq<Entry>, b: seq<Entry>)
    requires ChainOk(h, a) && ChainOk(h, b) && SameTip(a, b)
    ensures IsSuffix(a, b) || IsSuffix(b, a) || CollisionBetween(h, a, b)
  {
    if !CollisionBetween(h, a, b) {
      if |a| <= |b| {
        forall i | 0 <= i < |a|
          ensures a[i] == b[|b| - |a| + i]
        {
          AgreeFromTip(h, a, b, |a| - 1 - i);
        }
      } else {
        forall i | 0 <= i < |b|
          ensures b[i] == a[|a| - |b| + i]
        {
          AgreeFromTip(h, a, b, |b| - 1 - i);
        }
      }
    }
  }

  /** Dropping entries from the front is the one change the verifier cannot see: the first link is unchecked. */
  lemma SuffixVerifies(h: Hasher, a: seq<Entry>, b: seq<Entry>)
    requires ChainOk(h, a) && IsSuffix(b, a)
    ensures ChainOk(h, b)
  {
    var k := |a| - |b|;
    forall i | 0 <= i < |b|
      ensures HashOk(h, b[i]) && (0 < i ==> LinkOk(b, i))
    {
      assert b[i] == a[k + i] && HashOk(h, a[k + i]);
      if 0 < i {
        assert LinkOk(a, k + i) && b[i - 1] == a[k + i - 1];
      }
    }
  }

  lemma LinksToHash(h: Hasher, es: seq<Entry>, i: nat)
    requires ChainOk(h, es) && 0 < i < |es|
    ensures es[i].content.previousHash == h(es[i - 1].content)
  {
    assert LinkOk(es, i) && HashOk(h, es[i - 1]);
  }

  /**
   * A chain `a` from genesis, a list `b` with the same tip hash, no collision between them and no content of
   * `b` hashing to the genesis constant: `b` passes exactly when it is `a` with some oldest entries cut off.
   * So every edit, reordering, insertion and interior deletion is reported.
   */
  lemma TamperDetectionIsExact(h: Hasher, a: seq<Entry>, b: seq<Entry>)
    requires ChainOk(h, a) && SameTip(a, b) && !CollisionBetween(h, a, b)
    requires a[0].content.previousHash == GENESIS_HASH
    requires forall i :: 0 <= i < |b| ==> h(b[i].content) != GENESIS_HASH
    ensures Breaks(h, b) == [] <==> IsSuffix(b, a)
    ensures Breaks(h, b) == [] && |a| == |b| ==> a == b
  {
    BreaksEmptyIffChainOk(h, b);
    if ChainOk(h, b) {
      PinnedTipFixesHistory(h, a, b);
      if |a| < |b| {
        var k := |b| - |a|;
        assert b[k..][0] == a[0];
        LinksToHash(h, b, k);
      }
    }
    if IsSuffix(b, a) {
      SuffixVerifies(h, a, b);
    }
  }

  // ---------------------------------------------------------------------------------------------
  // Export
  // ---------------------------------------------------------------------------------------------

  ghost predicate Increasing(es: seq<Entry>) {
    forall i, j :: 0 <= i < j < |es| ==> es[i].content.sequence < es[j].content.sequence
  }

  function FilterFrom(es: seq<Entry>, start: int): seq<Entry> {
    if es == [] then []
    else (if es[0].content.sequence >= start then [es[0]] else []) + FilterFrom(es[1..], start)
  }

  function FilterTo(es: seq<Entry>, end: int): seq<Entry> {
    if es == [] then []
    else (if es[0].content.sequence <= end then [es[0]] else []) + FilterTo(es[1..], end)
  }

  /** The entries an export covers; 0 means "no bound" on either side, as in the source. */
  function Exported(es: seq<Entry>, start: int, end: Option<int>): seq<Entry> {
    var lower := if start > 0 then FilterFrom(es, start) else es;
    if end.Some? && end.value != 0 then FilterTo(lower, end.value) else lower
  }

  /** The entry lies in the range; 0 means "no bound" on either side. */
  predicate InRange(e: Entry, start: int, end: Option<int>) {
    && (start > 0 ==> e.content.sequence >= start)
    && (end.Some? && end.value != 0 ==> e.content.sequence <= end.value)
  }

  lemma ExportedStep(es: seq<Entry>, start: int, end: Option<int>)
    requires es != []
    ensures Exported(es, start, end) ==
            if InRange(es[0], start, end) then [es[0]] + Exported(es[1..], start, end) else Exported(es[1..], start, end)
  {
    var lower := if start > 0 then FilterFrom(es, start) else es;
    var rest := if start > 0 then FilterFrom(es[1..], start) else es[1..];
    if start > 0 && es[0].content.sequence < start {
      assert lower == rest;
    } else {
      assert lower == [es[0]] + rest && lower[1..] == rest;
    }
  }

  /** An export holds, in order, exactly the entries of the range, whatever the list. */
  lemma {:induction false} ExportedIsRange(es: seq<Entry>, start: int, end: Option<int>) returns (at: seq<nat>)
    ensures Selects(Exported(es, start, end), es, (e: Entry) => InRange(e, start, end), at)
  {
    at := [];
    if es != [] {
      var tail := ExportedIsRange(es[1..], start, end);
      ExportedStep(es, start, end);
      SelectsCons(Exported(es[1..], start, end), es, (e: Entry) => InRange(e, start, end), tail);
      if InRange(es[0], start, end) {
        at := [0] + Shifted(tail);
      } else {
        at := Shifted(tail);
      }
    } else {
      assert Exported(es, start, end) == [];
    }
  }

  lemma {:induction false} FilterFromKeepsAll(es: seq<Entry>, start: int)
    requires forall i :: 0 <= i < |es| ==> es[i].content.sequence >= start
    ensures FilterFrom(es, start) == es
  {
    if es != [] {
      FilterFromKeepsAll(es[1..], start);
    }
  }

  lemma {:induction false} FilterFromIsSuffix(es: seq<Entry>, start: int)
    requires Increasing(es)
    ensures IsSuffix(FilterFrom(es, start), es)
    ensures forall e :: e in FilterFrom(es, start) <==> e in es && e.content.sequence >= start
  {
    if es != [] {
      if es[0].content.sequence >= start {
        FilterFromKeepsAll(es, start);
      } else {
        FilterFromIsSuffix(es[1..], start);
      }
    }
  }

  lemma {:induction false} FilterToDropsAll(es: seq<Entry>, end: int)
    requires forall i :: 0 <= i < |es| ==> es[i].content.sequence > end
    ensures FilterTo(es, end) == []
  {
    if es != [] {
      FilterToDropsAll(es[1..], end);
    }
  }

  lemma {:induction false} FilterToIsPrefix(es: seq<Entry>, end: int)
    requires Increasing(es)
    ensures FilterTo(es, end) <= es
    ensures forall e :: e in FilterTo(es, end) <==> e in es && e.content.sequence <= end
  {
    if es != [] {
      if es[0].content.sequence > end {
        FilterToDropsAll(es, end);
      } else {
        FilterToIsPrefix(es[1..], end);
      }
    }
  }

  /** Exporting any sequence range of a verified, increasing chain gives a verified chain of exactly that range. */
  lemma ExportOfChainVerifies(h: Hasher, es: seq<Entry>, start: int, end: Option<int>)
    requires ChainOk(h, es) && Increasing(es)
    ensures Breaks(h, Exported(es, start, end)) == []
    ensures forall e :: e in Exported(es, start, end) <==>
      && e in es
      && (start > 0 ==> e.content.sequence >= start)
      && (end.Some? && end.value != 0 ==> e.content.sequence <= end.value)
  {
    LowerBoundKeeps(h, es, start);
    var lower := if start > 0 then FilterFrom(es, start) else es;
    var out := Exported(es, start, end);
    if end.Some? && end.value != 0 {
      FilterToIsPrefix(lower, end.value);
      PrefixVerifies(h, lower, out);
    }
    BreaksEmptyIffChainOk(h, out);
  }

  lemma LowerBoundKeeps(h: Hasher, es: seq<Entry>, start: int)
    requires ChainOk(h, es) && Increasing(es)
    ensures var lower := if start > 0 then FilterFrom(es, start) else es;
            && ChainOk(h, lower) && Increasing(lower)
            && forall e :: e in lower <==> e in es && (start > 0 ==> e.content.sequence >= start)
  {
    if start > 0 {
      var lower := FilterFrom(es, start);
      FilterFromIsSuffix(es, start);
      SuffixVerifies(h, es, lower);
      SuffixIncreases(es, lower);
    }
  }

  lemma SuffixIncreases(a: seq<Entry>, b: seq<Entry>)
    requires Increasing(a) && IsSuffix(b, a)
    ensures Increasing(b)
  {
    assert forall i :: 0 <= i < |b| ==> b[i] == a[|a| - |b| + i];
  }

  lemma PrefixVerifies(h: Hasher, a: seq<Entry>, b: seq<Entry>)
    requires ChainOk(h, a) && b <= a
    ensures ChainOk(h, b)
  {
    forall i | 0 <= i < |b|
      ensures HashOk(h, b[i]) && (0 < i ==> LinkOk(b, i))
    {
      assert HashOk(h, a[i]) && (0 < i ==> LinkOk(a, i));
    }
  }
}
