/** Running means that weigh each new value with a tenth, in closed form (core/anomaly.py: `_update_baseline`). */
module Averages {

  /** The weight that is left of a value after `n` more: 0.9 to the power of `n`. */
  function Fading(n: nat): real {
    if n == 0 then 1.0 else 0.9 * Fading(n - 1)
  }

  /** The sum of all values, each a tenth times its fading weight. */
  function Weighted(xs: seq<real>): real {
    if xs == [] then 0.0 else 0.1 * Fading(|xs| - 1) * xs[0] + Weighted(xs[1..])
  }

  /** The first value counts fully, as if it had been the mean for ever. */
  function Mean(xs: seq<real>): real {
    if xs == [] then 0.0 else Fading(|xs| - 1) * xs[0] + Weighted(xs[1..])
  }

  lemma {:induction false} WeightedSnoc(xs: seq<real>, x: real)
    ensures Weighted(xs + [x]) == 0.1 * x + 0.9 * Weighted(xs)
  {
    if xs == [] {
      assert xs + [x] == [x] && [x][1..] == [];
    } else {
      assert (xs + [x])[1..] == xs[1..] + [x];
      WeightedSnoc(xs[1..], x);
    }
  }

  lemma MeanSnoc(xs: seq<real>, x: real)
    ensures Mean(xs + [x]) == if xs == [] then x else 0.1 * x + 0.9 * Mean(xs)
  {
    if xs == [] {
      assert (xs + [x])[1..] == [];
    } else {
      assert (xs + [x])[1..] == xs[1..] + [x];
      WeightedSnoc(xs[1..], x);
    }
  }

  /** The weighted sum of the values from number `k` on, if the sum was raised to 0.01 just before; never, if `k` is 0. */
  function RaisedAt(xs: seq<real>, k: nat): real
    requires k <= |xs|
  {
    (if k == 0 then 0.0 else 0.01 * Fading(|xs| - k)) + Weighted(xs[k..])
  }

  /** `m` is the largest of these sums. */
  ghost predicate IsRaised(xs: seq<real>, m: real) {
    && (forall k :: 0 <= k <= |xs| ==> RaisedAt(xs, k) <= m)
    && (exists k :: 0 <= k <= |xs| && m == RaisedAt(xs, k))
  }

  lemma RaisedSnoc(xs: seq<real>, x: real, k: nat)
    requires k <= |xs|
    ensures RaisedAt(xs + [x], k) == 0.1 * x + 0.9 * RaisedAt(xs, k)
  {
    assert (xs + [x])[k..] == xs[k..] + [x];
    WeightedSnoc(xs[k..], x);
  }

  lemma RaisedLast(xs: seq<real>, x: real)
    ensures RaisedAt(xs + [x], |xs| + 1) == 0.01
  {
    assert (xs + [x])[|xs| + 1..] == [];
  }

  /** Adding a value and raising the result to at least 0.01 keeps the maximum form. */
  lemma RaisedStep(xs: seq<real>, m: real, x: real)
    requires IsRaised(xs, m)
    ensures var next := 0.1 * x + 0.9 * m; IsRaised(xs + [x], if next < 0.01 then 0.01 else next)
  {
    var next := 0.1 * x + 0.9 * m;
    var xs' := xs + [x];
    RaisedLast(xs, x);
    forall k | 0 <= k <= |xs|
      ensures RaisedAt(xs', k) <= next
    {
      RaisedSnoc(xs, x, k);
    }
    var k :| 0 <= k <= |xs| && m == RaisedAt(xs, k);
    RaisedSnoc(xs, x, k);
    assert RaisedAt(xs', k) == next;
  }

  lemma RaisedNone()
    ensures IsRaised([], 0.0)
  {
    assert RaisedAt([], 0) == 0.0;
  }
}
