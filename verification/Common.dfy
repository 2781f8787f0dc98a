/** Definitions shared by the models: optional values, Python's negative slices and a stable sort. */
module Common {

  datatype Option<+T> = None | Some(value: T)

  function Min(a: int, b: int): int {
    if a < b then a else b
  }

  /** Python's `s[-n:]`: the last `n` elements, and the whole list when `n` is 0. */
  function LastN<T>(s: seq<T>, n: nat): seq<T> {
    if n == 0 || |s| <= n then s else s[|s| - n..]
  }

  /** Truncating after every append loses nothing against truncating the full history once. */
  lemma LastNAppend<T>(all: seq<T>, x: T, n: nat)
    requires 0 < n
    ensures LastN(LastN(all, n) + [x], n) == LastN(all + [x], n)
  {
  }

  // ---------------------------------------------------------------------------------------------
  // Selections
  // ---------------------------------------------------------------------------------------------

  /** `part` holds, in order, exactly the elements of `whole` that `keep` accepts; `at` says where they are. */
  ghost predicate Selects<T(!new)>(part: seq<T>, whole: seq<T>, keep: T -> bool, at: seq<nat>) {
    && |at| == |part|
    && (forall j, k :: 0 <= j < k < |at| ==> at[j] < at[k])
    && (forall k {:trigger at[k]} :: 0 <= k < |at| ==> at[k] < |whole| && part[k] == whole[at[k]] && keep(whole[at[k]]))
    && (forall i {:trigger whole[i]} :: 0 <= i < |whole| && keep(whole[i]) ==> i in at)
  }

  function Shifted(at: seq<nat>): (r: seq<nat>)
    ensures |r| == |at| && forall k :: 0 <= k < |at| ==> r[k] == at[k] + 1
  {
    seq(|at|, k requires 0 <= k < |at| => at[k] + 1)
  }

  /** What the tail selects, with the head in front if it is accepted, is what the whole list selects. */
  lemma SelectsCons<T(!new)>(part: seq<T>, whole: seq<T>, keep: T -> bool, at: seq<nat>)
    requires whole != [] && Selects(part, whole[1..], keep, at)
    ensures if keep(whole[0]) then Selects([whole[0]] + part, whole, keep, [0] + Shifted(at))
            else Selects(part, whole, keep, Shifted(at))
  {
    forall i | 0 < i < |whole| && keep(whole[i])
      ensures i in Shifted(at)
    {
      ShiftedMember(part, whole, keep, at, i);
    }
    if keep(whole[0]) {
      SelectsHead(part, whole, keep, Shifted(at));
    }
  }

  lemma ShiftedMember<T(!new)>(part: seq<T>, whole: seq<T>, keep: T -> bool, at: seq<nat>, i: nat)
    requires whole != [] && Selects(part, whole[1..], keep, at) && 0 < i < |whole| && keep(whole[i])
    ensures i in Shifted(at)
  {
    assert whole[1..][i - 1] == whole[i];
    var k :| 0 <= k < |at| && at[k] == i - 1;
    assert Shifted(at)[k] == i;
  }

  lemma SelectsHead<T(!new)>(part: seq<T>, whole: seq<T>, keep: T -> bool, at: seq<nat>)
    requires whole != [] && keep(whole[0]) && |at| == |part|
    requires forall j, k :: 0 <= j < k < |at| ==> at[j] < at[k]
    requires forall k {:trigger at[k]} :: 0 <= k < |at| ==> 0 < at[k] < |whole| && part[k] == whole[at[k]] && keep(whole[at[k]])
    requires forall i {:trigger whole[i]} :: 0 < i < |whole| && keep(whole[i]) ==> i in at
    ensures Selects([whole[0]] + part, whole, keep, [0] + at)
  {
    var at' := [0] + at;
    assert forall k :: 0 < k < |at'| ==> at'[k] == at[k - 1];
    forall i | 0 <= i < |whole| && keep(whole[i])
      ensures i in at'
    {
      if i == 0 {
        assert at'[0] == 0;
      } else {
        assert i in at;
      }
    }
  }

  lemma {:induction false} SubsetCardinality<T>(a: set<T>, b: set<T>)
    requires a <= b
    ensures |a| <= |b| && (|a| == |b| ==> a == b)
  {
    if a != {} {
      var x :| x in a;
      SubsetCardinality(a - {x}, b - {x});
    }
  }

  lemma ConcatEmpty<T>(a: seq<T>, b: seq<T>)
    ensures a + b == [] <==> a == [] && b == []
  {
    assert |a + b| == |a| + |b|;
  }

  // ---------------------------------------------------------------------------------------------
  // A stable insertion sort; `leq` is any total preorder.
  // ---------------------------------------------------------------------------------------------

  ghost predicate TotalPreorder<T(!new)>(leq: (T, T) -> bool) {
    && (forall x, y :: leq(x, y) || leq(y, x))
    && (forall x, y, z :: leq(x, y) && leq(y, z) ==> leq(x, z))
  }

  ghost predicate Ordered<T>(s: seq<T>, leq: (T, T) -> bool) {
    forall i, j :: 0 <= i < j < |s| ==> leq(s[i], s[j])
  }

  /** Puts `x` in front of the first element it may precede. */
  function Insert<T>(x: T, s: seq<T>, leq: (T, T) -> bool): (r: seq<T>)
    ensures multiset(r) == multiset(s) + multiset{x} && |r| == |s| + 1
  {
    if s == [] || leq(x, s[0]) then [x] + s
    else
      var rest := Insert(x, s[1..], leq);
      assert s == [s[0]] + s[1..];
      [s[0]] + rest
  }

  /** Python's `sorted`: stable, the order given by `leq`. */
  function Sort<T>(s: seq<T>, leq: (T, T) -> bool): (r: seq<T>)
    ensures multiset(r) == multiset(s) && |r| == |s|
  {
    if s == [] then []
    else
      assert s == [s[0]] + s[1..];
      Insert(s[0], Sort(s[1..], leq), leq)
  }

  lemma {:induction false} InsertOrdered<T(!new)>(x: T, s: seq<T>, leq: (T, T) -> bool)
    requires TotalPreorder(leq) && Ordered(s, leq)
    ensures Ordered(Insert(x, s, leq), leq)
  {
    if s != [] && !leq(x, s[0]) {
      InsertOrdered(x, s[1..], leq);
      var rest := Insert(x, s[1..], leq);
      forall j | 0 <= j < |rest|
        ensures leq(s[0], rest[j])
      {
        assert rest[j] in multiset(rest);
        assert rest[j] == x || rest[j] in s[1..];
      }
    }
  }

  lemma {:induction false} SortOrdered<T(!new)>(s: seq<T>, leq: (T, T) -> bool)
    requires TotalPreorder(leq)
    ensures Ordered(Sort(s, leq), leq)
  {
    if s != [] {
      SortOrdered(s[1..], leq);
      InsertOrdered(s[0], Sort(s[1..], leq), leq);
    }
  }

  /** A list already in order is left as it is. */
  lemma {:induction false} SortIdentity<T>(s: seq<T>, leq: (T, T) -> bool)
    requires Ordered(s, leq)
    ensures Sort(s, leq) == s
  {
    if s != [] {
      SortIdentity(s[1..], leq);
      assert s == [s[0]] + s[1..];
    }
  }

  lemma SortMembers<T>(s: seq<T>, leq: (T, T) -> bool)
    ensures forall x :: x in s <==> x in Sort(s, leq)
  {
    forall x
      ensures x in s <==> x in Sort(s, leq)
    {
      assert x in s <==> x in multiset(s);
      assert x in Sort(s, leq) <==> x in multiset(Sort(s, leq));
    }
  }
}
