/** The enumeration detector's number test (core/anomaly.py: `_check_sequential_access`). */
module Enumeration {
  import opened Common

  // ---------------------------------------------------------------------------------------------
  // The first number in a resource name
  // ---------------------------------------------------------------------------------------------

  predicate IsDigit(c: char) {
    '0' <= c <= '9'
  }

  /** The value of the run of digits at the front of `s`, continuing from `sofar`. */
  function LeadingNumber(s: string, sofar: nat): nat
    decreases |s|
  {
    if s == "" || !IsDigit(s[0]) then sofar
    else LeadingNumber(s[1..], 10 * sofar + (s[0] as int - '0' as int))
  }

  /** `int(re.search(r'(\d+)', s).group(1))`. */
  function FirstNumber(s: string): Option<nat> {
    if s == "" then None
    else if IsDigit(s[0]) then Some(LeadingNumber(s, 0))
    else FirstNumber(s[1..])
  }

  function Decimal(n: nat): (s: string)
    ensures s != "" && forall i :: 0 <= i < |s| ==> IsDigit(s[i])
  {
    var d := [('0' as int + n % 10) as char];
    if n < 10 then d else Decimal(n / 10) + d
  }

  lemma {:induction false} LeadingNumberSplits(a: string, b: string, sofar: nat)
    requires forall i :: 0 <= i < |a| ==> IsDigit(a[i])
    ensures LeadingNumber(a + b, sofar) == LeadingNumber(b, LeadingNumber(a, sofar))
  {
    if a == "" {
      assert a + b == b;
    } else {
      assert (a + b)[1..] == a[1..] + b;
      LeadingNumberSplits(a[1..], b, 10 * sofar + (a[0] as int - '0' as int));
    }
  }

  lemma {:induction false} DecimalValue(n: nat)
    ensures LeadingNumber(Decimal(n), 0) == n
  {
    var d := [('0' as int + n % 10) as char];
    if n >= 10 {
      DecimalValue(n / 10);
      LeadingNumberSplits(Decimal(n / 10), d, 0);
      LastDigit(n / 10, n % 10);
    } else {
      LastDigit(0, n);
    }
  }

  lemma LastDigit(tens: nat, digit: nat)
    requires digit < 10
    ensures LeadingNumber([('0' as int + digit) as char], tens) == 10 * tens + digit
  {
    var d := [('0' as int + digit) as char];
    assert d[1..] == "";
  }

  /** A number written in decimal between text without digits before it and none right after it is read back. */
  lemma {:induction false} FirstNumberReadsBack(before: string, n: nat, after: string)
    requires forall i :: 0 <= i < |before| ==> !IsDigit(before[i])
    requires after != "" ==> !IsDigit(after[0])
    ensures FirstNumber(before + Decimal(n) + after) == Some(n)
  {
    var s := before + Decimal(n) + after;
    if before == "" {
      assert s == Decimal(n) + after;
      LeadingNumberSplits(Decimal(n), after, 0);
      DecimalValue(n);
    } else {
      assert s[1..] == before[1..] + Decimal(n) + after;
      FirstNumberReadsBack(before[1..], n, after);
    }
  }

  /** The value of a list of decimal digits. */
  function Value(digits: string): nat
    requires forall i :: 0 <= i < |digits| ==> '0' <= digits[i] <= '9'
  {
    if digits == "" then 0
    else
      var n := |digits| - 1;
      10 * Value(digits[..n]) + (digits[n] as int - '0' as int)
  }

  lemma {:induction false} LeadingIsValue(digits: string)
    requires forall i :: 0 <= i < |digits| ==> '0' <= digits[i] <= '9'
    ensures LeadingNumber(digits, 0) == Value(digits)
  {
    if digits != "" {
      var n := |digits| - 1;
      LeadingIsValue(digits[..n]);
      LeadingNumberSplits(digits[..n], [digits[n]], 0);
      assert digits == digits[..n] + [digits[n]];
      LastDigit(Value(digits[..n]), digits[n] as int - '0' as int);
      assert ('0' as int + (digits[n] as int - '0' as int)) as char == digits[n];
    }
  }

  /** Any text falls apart into text without digits, one run of digits and a rest that does not go on with a digit. */
  lemma {:induction false} FirstNumberIsFirstRun(before: string, digits: string, after: string)
    requires forall i :: 0 <= i < |before| ==> !('0' <= before[i] <= '9')
    requires digits != "" && forall i :: 0 <= i < |digits| ==> '0' <= digits[i] <= '9'
    requires after != "" ==> !('0' <= after[0] <= '9')
    ensures FirstNumber(before + digits + after) == Some(Value(digits))
  {
    var s := before + digits + after;
    if before == "" {
      assert s == digits + after;
      LeadingNumberSplits(digits, after, 0);
      LeadingIsValue(digits);
    } else {
      assert s[1..] == before[1..] + digits + after;
      FirstNumberIsFirstRun(before[1..], digits, after);
    }
  }

  lemma {:induction false} NoDigitNoNumber(s: string)
    ensures FirstNumber(s).None? <==> forall i :: 0 <= i < |s| ==> !('0' <= s[i] <= '9')
  {
    if s != "" && !IsDigit(s[0]) {
      NoDigitNoNumber(s[1..]);
      assert forall i :: 0 < i < |s| ==> s[i] == s[1..][i - 1];
    }
  }

  /** The numbers are those of the resources that have one, in order. */
  ghost predicate AreNumbers(numbers: seq<int>, resources: seq<string>, named: seq<string>, at: seq<nat>) {
    && Selects(named, resources, (s: string) => FirstNumber(s).Some?, at)
    && |numbers| == |named|
    && forall k :: 0 <= k < |named| ==> FirstNumber(named[k]) == Some(numbers[k])
  }

  lemma {:induction false} NumbersAre(resources: seq<string>) returns (named: seq<string>, at: seq<nat>)
    ensures AreNumbers(Numbers(resources), resources, named, at)
  {
    named, at := [], [];
    if resources != [] {
      var rest, places := NumbersAre(resources[1..]);
      SelectsCons(rest, resources, (s: string) => FirstNumber(s).Some?, places);
      if FirstNumber(resources[0]).Some? {
        named, at := [resources[0]] + rest, [0] + Shifted(places);
      } else {
        named, at := rest, Shifted(places);
        assert Numbers(resources) == Numbers(resources[1..]);
      }
    }
  }

  function Numbers(resources: seq<string>): seq<int> {
    if resources == [] then []
    else
      var first := FirstNumber(resources[0]);
      (if first.Some? then [first.value] else []) + Numbers(resources[1..])
  }

  // ---------------------------------------------------------------------------------------------
  // The test
  // ---------------------------------------------------------------------------------------------

  /** Sort, then compare neighbours. */
  predicate IsSequential(numbers: seq<int>) {
    var sorted := Sort(numbers, (x: int, y: int) => x <= y);
    forall i :: 0 <= i < |sorted| - 1 ==> sorted[i + 1] - sorted[i] == 1
  }

  ghost predicate Distinct(s: seq<int>) {
    forall i, j :: 0 <= i < j < |s| ==> s[i] != s[j]
  }

  /** The members are exactly `lo`, `lo + 1`, ..., `lo + n - 1`. */
  ghost predicate Covers(s: seq<int>, lo: int, n: nat) {
    forall x :: x in s <==> lo <= x < lo + n
  }

  lemma {:induction false} DistinctIsMultiplicity(s: seq<int>)
    ensures Distinct(s) <==> forall x :: multiset(s)[x] <= 1
  {
    if s != [] {
      DistinctIsMultiplicity(s[1..]);
      assert s == [s[0]] + s[1..];
      assert multiset(s) == multiset{s[0]} + multiset(s[1..]);
      assert s[0] in s[1..] <==> multiset(s[1..])[s[0]] >= 1;
      if Distinct(s) {
        assert Distinct(s[1..]);
        assert s[0] !in s[1..];
      } else {
        var i, j :| 0 <= i < j < |s| && s[i] == s[j];
        if i == 0 {
          assert s[1..][j - 1] == s[0];
          assert multiset(s)[s[0]] >= 2;
        } else {
          assert s[1..][i - 1] == s[1..][j - 1];
          var x :| multiset(s[1..])[x] > 1;
          assert multiset(s)[x] > 1;
        }
      }
    }
  }

  /** In an ordered list of distinct numbers, neighbours are at least one apart. */
  lemma {:induction false} DistinctOrderedSpread(s: seq<int>, i: nat, j: nat)
    requires Ordered(s, (x: int, y: int) => x <= y) && Distinct(s) && i <= j < |s|
    ensures s[i] + (j - i) <= s[j]
    decreases j - i
  {
    if i < j {
      DistinctOrderedSpread(s, i, j - 1);
      assert s[j - 1] <= s[j] && s[j - 1] != s[j];
    }
  }

  lemma {:induction false} StepsCount(s: seq<int>, i: nat)
    requires forall k :: 0 <= k < |s| - 1 ==> s[k + 1] - s[k] == 1
    requires i < |s|
    ensures s[i] == s[0] + i
  {
    if i > 0 {
      StepsCount(s, i - 1);
      assert s[i - 1 + 1] - s[i - 1] == 1;
    }
  }

  /** For an ordered list: neighbours differ by one exactly when it is distinct and covers an interval. */
  lemma OrderedSteps(s: seq<int>)
    requires Ordered(s, (x: int, y: int) => x <= y) && s != []
    ensures (forall i :: 0 <= i < |s| - 1 ==> s[i + 1] - s[i] == 1) <==> Distinct(s) && exists lo :: Covers(s, lo, |s|)
  {
    var n := |s|;
    if forall i :: 0 <= i < n - 1 ==> s[i + 1] - s[i] == 1 {
      forall i | 0 <= i < n
        ensures s[i] == s[0] + i
      {
        StepsCount(s, i);
      }
      forall x | s[0] <= x < s[0] + n
        ensures x in s
      {
        assert s[x - s[0]] == x;
      }
      assert Covers(s, s[0], n);
    }
    if Distinct(s) && exists lo :: Covers(s, lo, n) {
      var lo :| Covers(s, lo, n);
      forall i | 0 <= i < n
        ensures s[i] == lo + i
      {
        DistinctOrderedSpread(s, 0, i);
        DistinctOrderedSpread(s, i, n - 1);
        assert s[0] in s && s[n - 1] in s;
      }
    }
  }

  /**
   * The detector's test holds exactly when the numbers are pairwise distinct and form a full interval of integers, in
   * whatever order they arrived.
   */
  lemma SequentialIsFullInterval(numbers: seq<int>)
    requires numbers != []
    ensures IsSequential(numbers) <==> Distinct(numbers) && exists lo :: Covers(numbers, lo, |numbers|)
  {
    var leq := (x: int, y: int) => x <= y;
    var sorted := Sort(numbers, leq);
    SortOrdered(numbers, leq);
    SortMembers(numbers, leq);
    OrderedSteps(sorted);
    DistinctIsMultiplicity(numbers);
    DistinctIsMultiplicity(sorted);
    forall lo
      ensures Covers(numbers, lo, |numbers|) <==> Covers(sorted, lo, |sorted|)
    {
    }
  }
}
