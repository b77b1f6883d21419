/**
 * Active days and the longest streak: `sorted(dates.unique())` and the loop both
 * scripts run over it, counting consecutive calendar days.
 */
module Streaks {
  import opened Tally

  predicate StrictlyIncreasing(d: seq<int>) {
    forall i, j :: 0 <= i < j < |d| ==> d[i] < d[j]
  }

  /** `x` put into its place in an ascending list, unless it is already there. */
  function Insert(d: seq<int>, x: int): (r: seq<int>)
    requires StrictlyIncreasing(d)
    ensures StrictlyIncreasing(r)
    ensures forall y :: y in r <==> y in d || y == x
  {
    if |d| == 0 then [x]
    else if x < d[0] then [x] + d
    else if x == d[0] then d
    else
      var t := Insert(d[1..], x);
      assert forall y :: y in d <==> y == d[0] || y in d[1..];
      InsertedAfterHead(d, x, t);
      [d[0]] + t
  }

  /** Everything in the insertion into the tail comes after the head. */
  lemma {:induction false} InsertedAfterHead(d: seq<int>, x: int, t: seq<int>)
    requires StrictlyIncreasing(d) && |d| > 0 && d[0] < x
    requires StrictlyIncreasing(t) && forall y :: y in t <==> y in d[1..] || y == x
    ensures StrictlyIncreasing([d[0]] + t)
  {
    var r := [d[0]] + t;
    forall i, j | 0 <= i < j < |r|
      ensures r[i] < r[j]
    {
      assert r[j] == t[j - 1] && t[j - 1] in t;
      if i > 0 {
        assert r[i] == t[i - 1];
      } else if t[j - 1] != x {
        var m :| 0 <= m < |d[1..]| && d[1..][m] == t[j - 1];
        assert d[m + 1] == t[j - 1];
      }
    }
  }

  /** `sorted(days.unique())`: the distinct days, ascending. */
  function ActiveDates(days: seq<int>): (d: seq<int>)
    ensures StrictlyIncreasing(d)
    ensures forall y :: y in d <==> y in days
  {
    if |days| == 0 then []
    else
      var p := days[..|days| - 1];
      assert forall y :: y in days <==> y in p || y == days[|days| - 1];
      Insert(ActiveDates(p), days[|days| - 1])
  }

  /** An ascending list is fixed by its values: `ActiveDates` is the only such list. */
  lemma {:induction false} AscendingUnique(a: seq<int>, b: seq<int>)
    requires StrictlyIncreasing(a) && StrictlyIncreasing(b)
    requires forall y :: y in a <==> y in b
    ensures a == b
    decreases |a|
  {
    SameValuesEmpty(a, b);
    if |a| > 0 {
      assert a[0] in a && b[0] in b;
      FirstIsLeast(b, a[0]);
      FirstIsLeast(a, b[0]);
      forall y
        ensures y in a[1..] <==> y in b[1..]
      {
        if y in a[1..] {
          var k :| 1 <= k < |a| && a[k] == y;
          assert y != a[0] && y in b;
          var m :| 0 <= m < |b| && b[m] == y;
          assert m != 0;
          assert b[1..][m - 1] == y;
        }
        if y in b[1..] {
          var k :| 1 <= k < |b| && b[k] == y;
          assert y != b[0] && y in a;
          var m :| 0 <= m < |a| && a[m] == y;
          assert m != 0;
          assert a[1..][m - 1] == y;
        }
      }
      AscendingUnique(a[1..], b[1..]);
      assert a == [a[0]] + a[1..] && b == [b[0]] + b[1..];
    }
  }

  lemma {:induction false} SameValuesEmpty(a: seq<int>, b: seq<int>)
    requires forall y :: y in a <==> y in b
    ensures |a| == 0 <==> |b| == 0
  {
    if |a| > 0 {
      var y := a[0];
      assert y in a <==> y in b;
      assert y in a;
    }
    if |b| > 0 {
      var y := b[0];
      assert y in a <==> y in b;
      assert y in b;
    }
  }

  lemma {:induction false} FirstIsLeast(d: seq<int>, y: int)
    requires StrictlyIncreasing(d) && y in d
    ensures d[0] <= y
  {
    var i :| 0 <= i < |d| && d[i] == y;
    if i > 0 {
      assert d[0] < d[i];
    }
  }

  /** `active_days`: the number of distinct days. */
  lemma {:induction false} ActiveDaysCount(days: seq<int>)
    ensures |ActiveDates(days)| == |set y | y in days|
  {
    var d := ActiveDates(days);
    NoDuplicatesCard(d);
    assert (set y | y in d) == (set y | y in days);
  }

  /** `d[i..j]` is a run of consecutive days: each one day after the one before. */
  ghost predicate Run(d: seq<int>, i: int, j: int) {
    0 <= i < j <= |d| && forall k :: i < k < j ==> d[k] == d[k - 1] + 1
  }

  /**
   * The streak loop: 1 for an empty list (the loop never runs), otherwise the
   * length of the longest run of consecutive days.
   */
  method LongestStreak(d: seq<int>) returns (longest: nat)
    ensures |d| == 0 ==> longest == 1
    ensures |d| > 0 ==> 1 <= longest <= |d| && exists i, j :: Run(d, i, j) && j - i == longest
    ensures forall i, j :: Run(d, i, j) ==> j - i <= longest
  {
    longest := 1;
    if |d| == 0 {
      return;
    }
    var current := 1;
    var i := 1;
    ghost var best := 0;
    while i < |d|
      invariant 1 <= i <= |d|
      invariant 1 <= current <= longest <= i
      invariant Run(d, i - current, i)
      invariant i - current == 0 || d[i - current] != d[i - current - 1] + 1
      invariant Run(d, best, best + longest)
      invariant forall a, b :: Run(d, a, b) && b <= i ==> b - a <= longest
    {
      if d[i] - d[i - 1] == 1 {
        current := current + 1;
        if longest < current {
          longest := current;
          best := i + 1 - current;
        }
        RunExtend(d, i + 1 - current, i);
      } else {
        current := 1;
      }
      RunsBounded(d, i, current, longest);
      i := i + 1;
    }
    assert Run(d, best, best + longest);
  }

  /** A run ending just before day `i` extends to `i` when day `i` follows on. */
  lemma {:induction false} RunExtend(d: seq<int>, a: int, i: int)
    requires Run(d, a, i) && i < |d| && d[i] - d[i - 1] == 1
    ensures Run(d, a, i + 1)
  {
  }

  /** The loop's bound on runs carries over from days before `i` to days up to `i`. */
  lemma {:induction false} RunsBounded(d: seq<int>, i: int, current: int, longest: int)
    requires 1 <= current <= longest && current <= i + 1
    requires Run(d, i + 1 - current, i + 1)
    requires i + 1 - current == 0 || d[i + 1 - current] != d[i - current] + 1
    requires forall a, b :: Run(d, a, b) && b <= i ==> b - a <= longest
    ensures forall a, b :: Run(d, a, b) && b <= i + 1 ==> b - a <= longest
  {
    forall a, b | Run(d, a, b) && b <= i + 1
      ensures b - a <= longest
    {
      if b == i + 1 {
        RunEndingAt(d, a, i, current);
      }
    }
  }

  /** A run ending at day `i` cannot start before the start of the maximal run ending there. */
  lemma {:induction false} RunEndingAt(d: seq<int>, a: int, i: int, current: int)
    requires Run(d, a, i + 1) && 1 <= current <= i + 1
    requires Run(d, i + 1 - current, i + 1)
    requires i + 1 - current == 0 || d[i + 1 - current] != d[i - current] + 1
    ensures i + 1 - a <= current
  {
  }

  /** The first and last of an ascending list are its least and greatest values (`min()` and `max()`). */
  lemma {:induction false} EndsAreExtremes(d: seq<int>, y: int)
    requires StrictlyIncreasing(d) && y in d
    ensures d[0] <= y <= d[|d| - 1]
  {
    var i :| 0 <= i < |d| && d[i] == y;
    if 0 < i {
      assert d[0] < d[i];
    }
    if i < |d| - 1 {
      assert d[i] < d[|d| - 1];
    }
  }
}
