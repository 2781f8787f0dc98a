/** `fnmatch.fnmatch` on POSIX for patterns of `*`, `?` and literal characters (core/capabilities.py, agents/base.py, core/approval.py). */
module Glob {
  import opened Common

  /** What a pattern means, one character at a time. */
  predicate Matches(p: string, t: string)
    decreases |p| + |t|
  {
    if p == "" then t == ""
    else if p[0] == '*' then Matches(p[1..], t) || (t != "" && Matches(p, t[1..]))
    else t != "" && (p[0] == '?' || p[0] == t[0]) && Matches(p[1..], t[1..])
  }

  // ---------------------------------------------------------------------------------------------
  // The split-based matcher: pieces between stars, each placed as far left as it goes
  // ---------------------------------------------------------------------------------------------

  /** The star-free piece `f` fits at the front of `t`. */
  predicate FixedAt(f: string, t: string) {
    |f| <= |t| && forall i :: 0 <= i < |f| ==> f[i] == '?' || f[i] == t[i]
  }

  /** The length of the piece before the first star. */
  function PieceLength(p: string): (n: nat)
    ensures n <= |p|
  {
    if p == "" || p[0] == '*' then 0 else 1 + PieceLength(p[1..])
  }

  lemma {:induction false} PieceHasNoStar(p: string)
    ensures '*' !in p[..PieceLength(p)]
    ensures PieceLength(p) < |p| ==> p[PieceLength(p)] == '*'
  {
    if p != "" && p[0] != '*' {
      PieceHasNoStar(p[1..]);
      assert p[..PieceLength(p)] == [p[0]] + p[1..][..PieceLength(p[1..])];
    }
  }

  /** The leftmost place where the piece fits. */
  function Leftmost(f: string, t: string): (r: Option<nat>)
    ensures r.Some? ==> r.value + |f| <= |t|
    decreases |t|
  {
    if FixedAt(f, t) then Some(0)
    else if t == "" then None
    else
      var r := Leftmost(f, t[1..]);
      if r.Some? then Some(r.value + 1) else None
  }

  lemma {:induction false} LeftmostFits(f: string, t: string)
    requires Leftmost(f, t).Some?
    ensures FixedAt(f, t[Leftmost(f, t).value..])
    decreases |t|
  {
    if FixedAt(f, t) {
      assert t[0..] == t;
    } else {
      LeftmostFits(f, t[1..]);
    }
  }

  lemma {:induction false} LeftmostIsFirst(f: string, t: string, k: nat)
    requires k <= |t| && FixedAt(f, t[k..])
    ensures Leftmost(f, t).Some? && Leftmost(f, t).value <= k
    decreases |t|
  {
    if k == 0 {
      assert t[0..] == t;
    } else if !FixedAt(f, t) {
      assert t[k..] == t[1..][k - 1..];
      LeftmostIsFirst(f, t[1..], k - 1);
    }
  }

  /** The rest `q` of a pattern after a star: leftmost pieces without backtracking, the last one at the end. */
  predicate AfterStar(q: string, t: string)
    decreases |q|
  {
    var n := PieceLength(q);
    if n == |q| then |q| <= |t| && FixedAt(q, t[|t| - |q|..])
    else
      var hit := Leftmost(q[..n], t);
      hit.Some? && AfterStar(q[n + 1..], t[hit.value + n..])
  }

  predicate SplitMatches(p: string, t: string) {
    var n := PieceLength(p);
    if n == |p| then |p| == |t| && FixedAt(p, t)
    else FixedAt(p[..n], t) && AfterStar(p[n + 1..], t[n..])
  }

  // ---------------------------------------------------------------------------------------------
  // The two agree
  // ---------------------------------------------------------------------------------------------

  lemma {:induction false} FixedPrefix(f: string, q: string, t: string)
    requires '*' !in f
    ensures Matches(f + q, t) <==> FixedAt(f, t) && Matches(q, t[|f|..])
  {
    if f == "" {
      assert f + q == q && t[|f|..] == t;
    } else {
      assert (f + q)[1..] == f[1..] + q;
      if t != "" {
        FixedPrefix(f[1..], q, t[1..]);
        if |f| <= |t| {
          assert t[1..][|f[1..]|..] == t[|f|..];
        }
        if FixedAt(f, t) {
          assert FixedAt(f[1..], t[1..]);
        } else if FixedAt(f[1..], t[1..]) && (f[0] == '?' || f[0] == t[0]) {
          forall i | 0 <= i < |f|
            ensures f[i] == '?' || f[i] == t[i]
          {
            if i > 0 {
              assert f[i] == f[1..][i - 1] && t[i] == t[1..][i - 1];
            }
          }
        }
      }
    }
  }

  /** One step of a leading star: it ends here, or it takes a character. */
  lemma StarStep(q: string, t: string)
    ensures Matches("*" + q, t) <==> Matches(q, t) || (t != "" && Matches("*" + q, t[1..]))
  {
    assert ("*" + q)[1..] == q;
  }

  /** How many characters a matching star can skip. */
  lemma {:induction false} StarSkips(q: string, t: string) returns (k: nat)
    requires Matches("*" + q, t)
    ensures k <= |t| && Matches(q, t[k..])
    decreases |t|
  {
    StarStep(q, t);
    if Matches(q, t) {
      k := 0;
      assert t[0..] == t;
    } else {
      var rest := StarSkips(q, t[1..]);
      k := rest + 1;
      assert t[1..][rest..] == t[k..];
    }
  }

  /** What a leading star can match from further right it can match from here. */
  lemma {:induction false} StarAbsorbs(q: string, t: string, j: nat)
    requires j <= |t| && Matches("*" + q, t[j..])
    ensures Matches("*" + q, t)
    decreases j
  {
    if j == 0 {
      assert t[0..] == t;
    } else {
      assert t[1..][j - 1..] == t[j..];
      StarAbsorbs(q, t[1..], j - 1);
      StarStep(q, t);
    }
  }

  lemma StarFrom(q: string, t: string, k: nat)
    requires k <= |t| && Matches(q, t[k..])
    ensures Matches("*" + q, t)
  {
    StarStep(q, t[k..]);
    StarAbsorbs(q, t, k);
  }

  lemma PieceThenStar(q: string, t: string)
    requires PieceLength(q) < |q|
    ensures var n := PieceLength(q);
            Matches(q, t) <==> FixedAt(q[..n], t) && Matches("*" + q[n + 1..], t[n..])
  {
    var n := PieceLength(q);
    PieceHasNoStar(q);
    assert q == q[..n] + ("*" + q[n + 1..]);
    FixedPrefix(q[..n], "*" + q[n + 1..], t);
  }

  /** A piece found at `k` leaves less to the rest than the piece found leftmost, at `first`. */
  lemma LaterIsNoBetter(q: string, t: string, first: nat, k: nat, n: nat)
    requires first <= k && k + n <= |t| && Matches("*" + q, t[k..][n..])
    ensures Matches("*" + q, t[first + n..])
  {
    assert t[k..][n..] == t[first + n..][k - first..];
    StarAbsorbs(q, t[first + n..], k - first);
  }

  lemma {:induction false} GreedyIsSound(q: string, t: string)
    requires AfterStar(q, t)
    ensures Matches("*" + q, t)
    decreases |q|
  {
    var n := PieceLength(q);
    if n == |q| {
      var k := |t| - |q|;
      FixedMatches(q, t[k..]);
      StarFrom(q, t, k);
    } else {
      var k := Leftmost(q[..n], t).value;
      LeftmostFits(q[..n], t);
      GreedyIsSound(q[n + 1..], t[k + n..]);
      assert t[k..][n..] == t[k + n..];
      PieceThenStar(q, t[k..]);
      StarFrom(q, t, k);
    }
  }

  /** Placing each piece leftmost never loses a match. */
  lemma {:induction false} GreedyIsComplete(q: string, t: string)
    requires Matches("*" + q, t)
    ensures AfterStar(q, t)
    decreases |q|
  {
    if PieceLength(q) == |q| {
      LastPieceAtEnd(q, t);
    } else {
      var rest, left := LeftmostLeavesEnough(q, t);
      GreedyIsComplete(rest, left);
    }
  }

  lemma LastPieceAtEnd(q: string, t: string)
    requires PieceLength(q) == |q| && Matches("*" + q, t)
    ensures AfterStar(q, t)
  {
    var k := StarSkips(q, t);
    FixedMatches(q, t[k..]);
    assert k == |t| - |q|;
  }

  /** Placing the first piece leftmost leaves a text that the rest of the pattern still matches. */
  lemma LeftmostLeavesEnough(q: string, t: string) returns (rest: string, left: string)
    requires PieceLength(q) < |q| && Matches("*" + q, t)
    ensures |rest| < |q| && Matches("*" + rest, left)
    ensures AfterStar(rest, left) ==> AfterStar(q, t)
  {
    var n := PieceLength(q);
    var k := StarSkips(q, t);
    PieceThenStar(q, t[k..]);
    LeftmostIsFirst(q[..n], t, k);
    var at := Leftmost(q[..n], t).value;
    LaterIsNoBetter(q[n + 1..], t, at, k, n);
    rest, left := q[n + 1..], t[at + n..];
  }

  lemma FixedMatches(q: string, t: string)
    requires PieceLength(q) == |q|
    ensures Matches(q, t) <==> |q| == |t| && FixedAt(q, t)
  {
    PieceHasNoStar(q);
    assert q[..|q|] == q && q + "" == q;
    FixedPrefix(q, "", t);
  }

  /** The split-based matcher computes exactly the meaning of the pattern. */
  lemma SplitMatchesIsMatches(p: string, t: string)
    ensures SplitMatches(p, t) <==> Matches(p, t)
  {
    var n := PieceLength(p);
    if n == |p| {
      FixedMatches(p, t);
    } else {
      PieceThenStar(p, t);
      if SplitMatches(p, t) {
        GreedyIsSound(p[n + 1..], t[n..]);
      }
      if Matches(p, t) {
        GreedyIsComplete(p[n + 1..], t[n..]);
      }
    }
  }

  lemma MatchesEverything(t: string)
    ensures Matches("*", t)
  {
    assert t[|t|..] == "" && "*" + "" == "*";
    StarFrom("", t, |t|);
  }

  /** Every pattern matches its own text, so testing for equality as well adds nothing. */
  lemma {:induction false} MatchesItself(p: string)
    ensures Matches(p, p)
  {
    if p != "" {
      MatchesItself(p[1..]);
      if p[0] == '*' {
        assert Matches(p, p[1..]) by {
          assert p == "*" + p[1..];
          StarStep(p[1..], p[1..]);
        }
      }
    }
  }

  /** A pattern without wildcards matches its own text only. */
  lemma LiteralPattern(p: string, t: string)
    requires '*' !in p && '?' !in p
    ensures Matches(p, t) <==> t == p
  {
    assert p + "" == p;
    FixedPrefix(p, "", t);
    if Matches(p, t) {
      assert t[..|p|] == p && t == t[..|p|] + t[|p|..];
    }
  }

  /** Literal characters and a star match exactly the texts that start with them. */
  lemma PrefixPattern(p: string, t: string)
    requires '*' !in p && '?' !in p
    ensures Matches(p + "*", t) <==> p <= t
  {
    FixedPrefix(p, "*", t);
    if |p| <= |t| {
      MatchesEverything(t[|p|..]);
      assert p <= t <==> forall i :: 0 <= i < |p| ==> p[i] == t[i];
    }
  }

  // ---------------------------------------------------------------------------------------------
  // The meaning without recursion
  // ---------------------------------------------------------------------------------------------

  /** The part of the text from `from` to `to` fits the pattern's character `p`: a star takes any, the others just one. */
  predicate Fits(p: char, t: string, from: nat, to: nat) {
    && from <= to <= |t|
    && (p != '*' ==> to == from + 1 && (p == '?' || p == t[from]))
  }

  /** The cuts divide the text from `from` on into one part for each character of the pattern, and each part fits. */
  ghost predicate Aligned(p: string, t: string, from: nat, cuts: seq<nat>) {
    && |cuts| == |p| + 1
    && cuts[0] == from
    && cuts[|p|] == |t|
    && forall i {:trigger p[i]} :: 0 <= i < |p| ==> Fits(p[i], t, cuts[i], cuts[i + 1])
  }

  lemma {:induction false} AlignmentOf(p: string, t: string, from: nat) returns (cuts: seq<nat>)
    requires from <= |t| && Matches(p, t[from..])
    ensures Aligned(p, t, from, cuts)
    decreases |p|
  {
    if p == "" {
      cuts := [from];
    } else {
      var next := from + 1;
      if p[0] == '*' {
        assert p == "*" + p[1..];
        var k := StarSkips(p[1..], t[from..]);
        next := from + k;
        assert t[from..][k..] == t[next..];
      } else {
        assert t[from..][1..] == t[next..] && t[from..][0] == t[from];
      }
      var rest := AlignmentOf(p[1..], t, next);
      cuts := [from] + rest;
      AlignedCons(p, t, from, next, rest);
    }
  }

  lemma AlignedCons(p: string, t: string, from: nat, next: nat, rest: seq<nat>)
    requires p != "" && Fits(p[0], t, from, next) && Aligned(p[1..], t, next, rest)
    ensures Aligned(p, t, from, [from] + rest)
  {
    var cuts := [from] + rest;
    forall i | 0 <= i < |p|
      ensures Fits(p[i], t, cuts[i], cuts[i + 1])
    {
      if i > 0 {
        assert p[i] == p[1..][i - 1];
      }
    }
  }

  lemma {:induction false} AlignedMatches(p: string, t: string, from: nat, cuts: seq<nat>)
    requires Aligned(p, t, from, cuts) && from <= |t|
    ensures Matches(p, t[from..])
    decreases |p|
  {
    if p != "" {
      var next := cuts[1];
      assert Fits(p[0], t, from, next);
      AlignedTail(p, t, from, cuts);
      AlignedMatches(p[1..], t, next, cuts[1..]);
      if p[0] == '*' {
        assert p == "*" + p[1..] && t[from..][next - from..] == t[next..];
        StarFrom(p[1..], t[from..], next - from);
      } else {
        assert t[from..][1..] == t[next..] && t[from..][0] == t[from];
      }
    }
  }

  lemma AlignedTail(p: string, t: string, from: nat, cuts: seq<nat>)
    requires Aligned(p, t, from, cuts) && p != ""
    ensures Aligned(p[1..], t, cuts[1], cuts[1..])
  {
    forall i | 0 <= i < |p| - 1
      ensures Fits(p[1..][i], t, cuts[1..][i], cuts[1..][i + 1])
    {
      assert p[1..][i] == p[i + 1];
    }
  }

  /** A pattern matches a text exactly if the text can be cut into parts that fit its characters. */
  lemma MatchesIffAligned(p: string, t: string)
    ensures Matches(p, t) <==> exists cuts :: Aligned(p, t, 0, cuts)
  {
    assert t[0..] == t;
    if Matches(p, t) {
      var cuts := AlignmentOf(p, t, 0);
    }
    if cuts :| Aligned(p, t, 0, cuts) {
      AlignedMatches(p, t, 0, cuts);
    }
  }
}
