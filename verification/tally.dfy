/**
 * Counting as pandas does it for both scripts: group sizes (`groupby().size()`,
 * `value_counts()`), zero-filled breakdowns over a fixed key list (`reindex(...,
 * fill_value=0)`), the first key holding the maximum (`idxmax()`, `max(d, key=d.get)`),
 * the number of distinct values (`nunique()`) and the largest counts first (`head(n)`
 * of the counts sorted in descending order).
 */
module Tally {
  import opened Common

  /** Number of occurrences of `x` in `xs`. */
  function Count<T(==)>(xs: seq<T>, x: T): nat {
    if |xs| == 0 then 0 else (if xs[0] == x then 1 else 0) + Count(xs[1..], x)
  }

  /** A value occurs in `xs` exactly when its count is positive. */
  lemma {:induction false} CountPositive<T>(xs: seq<T>, x: T)
    ensures Count(xs, x) > 0 <==> x in xs
  {
    if |xs| > 0 {
      CountPositive(xs[1..], x);
      assert xs == [xs[0]] + xs[1..];
    }
  }

  /** The rows a boolean mask selects: at most all of them, none exactly when no entry is set, all exactly when every entry is. */
  lemma {:induction false} MaskCount(f: seq<bool>)
    ensures Count(f, true) <= |f|
    ensures Count(f, true) == 0 <==> forall i :: 0 <= i < |f| ==> !f[i]
    ensures Count(f, true) == |f| <==> forall i :: 0 <= i < |f| ==> f[i]
  {
    if |f| > 0 {
      MaskCount(f[1..]);
      assert forall i :: 1 <= i < |f| ==> f[i] == f[1..][i - 1];
    }
  }

  /** Counting over a concatenation adds up. */
  lemma {:induction false} CountAppend<T>(a: seq<T>, b: seq<T>, x: T)
    ensures Count(a + b, x) == Count(a, x) + Count(b, x)
  {
    if |a| > 0 {
      assert (a + b)[1..] == a[1..] + b;
      CountAppend(a[1..], b, x);
    } else {
      assert a + b == b;
    }
  }

  function Sum(s: seq<nat>): nat {
    if |s| == 0 then 0 else s[0] + Sum(s[1..])
  }

  /** Adding one to one entry adds one to the total. */
  lemma {:induction false} SumBump(s: seq<nat>, k: nat)
    requires k < |s|
    ensures Sum(s[k := s[k] + 1]) == Sum(s) + 1
  {
    if k > 0 {
      SumBump(s[1..], k - 1);
      assert s[k := s[k] + 1][1..] == s[1..][k - 1 := s[k] + 1];
    }
  }

  /** `n` zeros. */
  function Zeros(n: nat): (z: seq<nat>)
    ensures |z| == n && Sum(z) == 0
    ensures forall k :: 0 <= k < n ==> z[k] == 0
  {
    if n == 0 then [] else [0] + Zeros(n - 1)
  }

  /**
   * Group sizes over the key list 0..n-1 with 0 for a key no element has: the
   * breakdown holds every key, each with its count, and the counts add up to the
   * number of elements.
   */
  function Breakdown(keys: seq<nat>, n: nat): (counts: seq<nat>)
    requires forall i :: 0 <= i < |keys| ==> keys[i] < n
    ensures |counts| == n
    ensures forall k: nat :: k < n ==> counts[k] == Count(keys, k)
    ensures Sum(counts) == |keys|
  {
    if |keys| == 0 then Zeros(n)
    else
      var rest := Breakdown(keys[1..], n);
      SumBump(rest, keys[0]);
      rest[keys[0] := rest[keys[0]] + 1]
  }

  /** The first index holding the largest count, as `idxmax()` and `max(d, key=d.get)` pick it. */
  function FirstMax(s: seq<nat>): (i: nat)
    requires |s| > 0
    ensures i < |s|
    ensures forall j :: 0 <= j < |s| ==> s[j] <= s[i]
    ensures forall j :: 0 <= j < i ==> s[j] < s[i]
  {
    if |s| == 1 then 0
    else
      var k := FirstMax(s[..|s| - 1]);
      if s[|s| - 1] > s[k] then |s| - 1 else k
  }

  /** Those two properties pin the index down. */
  lemma {:induction false} FirstMaxUnique(s: seq<nat>, i: nat)
    requires i < |s|
    requires forall j :: 0 <= j < |s| ==> s[j] <= s[i]
    requires forall j :: 0 <= j < i ==> s[j] < s[i]
    ensures FirstMax(s) == i
  {
    var k := FirstMax(s);
    assert !(k < i) && !(i < k);
  }

  // ---------------------------------------------------------------------------
  // Distinct values

  predicate NoDuplicates<T(==)>(s: seq<T>) {
    forall i, j :: 0 <= i < j < |s| ==> s[i] != s[j]
  }

  /** The distinct values of `xs` in order of first appearance (`unique()`). */
  function Distinct<T(==,!new)>(xs: seq<T>): (ds: seq<T>)
    ensures forall x :: x in ds <==> x in xs
    ensures NoDuplicates(ds)
  {
    if |xs| == 0 then []
    else
      var r := Distinct(xs[..|xs| - 1]);
      var x := xs[|xs| - 1];
      assert forall y :: y in xs <==> y in xs[..|xs| - 1] || y == x;
      if x in r then r else r + [x]
  }

  /** A duplicate-free sequence has as many elements as its set of values. */
  lemma {:induction false} NoDuplicatesCard<T>(s: seq<T>)
    requires NoDuplicates(s)
    ensures |set x | x in s| == |s|
  {
    if |s| > 0 {
      var p := s[..|s| - 1];
      var x := s[|s| - 1];
      NoDuplicatesCard(p);
      assert x !in p;
      assert (set y | y in s) == (set y | y in p) + {x};
    }
  }

  /** `nunique()`: the number of distinct values. */
  function UniqueCount<T(==,!new)>(xs: seq<T>): (n: nat)
    ensures n == |set x | x in xs|
  {
    var ds := Distinct(xs);
    NoDuplicatesCard(ds);
    assert (set x | x in ds) == (set x | x in xs);
    |ds|
  }

  // ---------------------------------------------------------------------------
  // Largest counts first

  /** A distinct value and its group size. */
  datatype Entry<T> = Entry(key: T, count: nat)

  /** Every distinct value with its count, in order of first appearance. */
  function Tabulate<T(==,!new)>(xs: seq<T>): (es: seq<Entry<T>>)
    ensures |es| == |Distinct(xs)|
    ensures forall i :: 0 <= i < |es| ==> es[i].key == Distinct(xs)[i] && es[i].count == Count(xs, es[i].key)
  {
    var ds := Distinct(xs);
    seq(|ds|, i requires 0 <= i < |ds| => Entry(ds[i], Count(xs, ds[i])))
  }

  function CountsOf<T>(es: seq<Entry<T>>): (cs: seq<nat>)
    ensures |cs| == |es| && forall i :: 0 <= i < |es| ==> cs[i] == es[i].count
  {
    seq(|es|, i requires 0 <= i < |es| => es[i].count)
  }

  /** Entries ordered by count, largest first. */
  predicate NonIncreasing<T>(es: seq<Entry<T>>) {
    forall i, j :: 0 <= i < j < |es| ==> es[j].count <= es[i].count
  }

  /** `es` without its `i`th entry. */
  function Without<T>(es: seq<Entry<T>>, i: nat): (r: seq<Entry<T>>)
    requires i < |es|
    ensures |r| == |es| - 1
  {
    es[..i] + es[i + 1..]
  }

  /** With no entry repeated, removing entry `i` removes exactly that entry. */
  lemma {:induction false} WithoutMembers<T>(es: seq<Entry<T>>, i: nat)
    requires i < |es| && NoDuplicates(es)
    ensures NoDuplicates(Without(es, i))
    ensures forall e :: e in Without(es, i) <==> e in es && e != es[i]
  {
    var r := Without(es, i);
    assert forall j :: 0 <= j < |r| ==> r[j] == (if j < i then es[j] else es[j + 1]);
    forall e | e in es && e != es[i]
      ensures e in r
    {
      var j :| 0 <= j < |es| && es[j] == e;
      if j < i {
        assert r[j] == e;
      } else {
        assert r[j - 1] == e;
      }
    }
  }

  /** The `n` largest entries by repeatedly taking the first largest of what is left. */
  function Select<T>(es: seq<Entry<T>>, n: nat): (top: seq<Entry<T>>)
    requires NoDuplicates(es)
    ensures |top| == Min(n, |es|)
    decreases n
  {
    if n == 0 || |es| == 0 then []
    else
      var i := FirstMax(CountsOf(es));
      WithoutMembers(es, i);
      [es[i]] + Select(Without(es, i), n - 1)
  }

  /** The entry `Select` takes first has the largest count. */
  lemma {:induction false} FirstMaxEntry<T>(es: seq<Entry<T>>, e: Entry<T>)
    requires |es| > 0 && e in es
    ensures e.count <= es[FirstMax(CountsOf(es))].count
  {
    var j :| 0 <= j < |es| && es[j] == e;
    assert CountsOf(es)[j] == e.count;
  }

  /** `Select` takes entries of `es`, none twice. */
  lemma {:induction false} SelectMembers<T>(es: seq<Entry<T>>, n: nat)
    requires NoDuplicates(es)
    ensures forall e :: e in Select(es, n) ==> e in es
    ensures NoDuplicates(Select(es, n))
    decreases n
  {
    if n > 0 && |es| > 0 {
      var i := FirstMax(CountsOf(es));
      var rest := Without(es, i);
      WithoutMembers(es, i);
      var tail := Select(rest, n - 1);
      var top := Select(es, n);
      assert top == [es[i]] + tail;
      SelectMembers(rest, n - 1);
      assert es[i] !in tail;
      forall a, b | 0 <= a < b < |top|
        ensures top[a] != top[b]
      {
        assert top[b] == tail[b - 1];
        if a > 0 {
          assert top[a] == tail[a - 1];
        }
      }
    }
  }

  /** `Select` lists the largest count first. */
  lemma {:induction false} SelectOrdered<T>(es: seq<Entry<T>>, n: nat)
    requires NoDuplicates(es)
    ensures NonIncreasing(Select(es, n))
    decreases n
  {
    if n > 0 && |es| > 0 {
      var i := FirstMax(CountsOf(es));
      var rest := Without(es, i);
      WithoutMembers(es, i);
      var tail := Select(rest, n - 1);
      var top := Select(es, n);
      assert top == [es[i]] + tail;
      SelectMembers(rest, n - 1);
      SelectOrdered(rest, n - 1);
      forall a, b | 0 <= a < b < |top|
        ensures top[b].count <= top[a].count
      {
        assert top[b] == tail[b - 1];
        if a > 0 {
          assert top[a] == tail[a - 1];
        } else {
          assert tail[b - 1] in tail;
          FirstMaxEntry(es, top[b]);
        }
      }
    }
  }

  /** Every entry of `es` not in `top` has a count of at most `c`. */
  ghost predicate LeftOutAtMost<T>(es: seq<Entry<T>>, top: seq<Entry<T>>, c: nat) {
    forall e :: e in es && e !in top ==> e.count <= c
  }

  /** No entry `Select` leaves out has a larger count than the last one it takes. */
  lemma {:induction false} SelectComplete<T>(es: seq<Entry<T>>, n: nat)
    requires NoDuplicates(es)
    ensures |Select(es, n)| > 0 ==> LeftOutAtMost(es, Select(es, n), Select(es, n)[|Select(es, n)| - 1].count)
    decreases n
  {
    if n > 0 && |es| > 0 {
      var i := FirstMax(CountsOf(es));
      var rest := Without(es, i);
      WithoutMembers(es, i);
      var tail := Select(rest, n - 1);
      var top := Select(es, n);
      assert top == [es[i]] + tail;
      SelectComplete(rest, n - 1);
      var last := top[|top| - 1];
      forall e | e in es && e !in top
        ensures e.count <= last.count
      {
        assert e != es[i];
        assert e in rest;
        assert e !in tail;
        if |tail| == 0 {
          FirstMaxEntry(es, e);
          assert last == es[i];
        } else {
          assert last == tail[|tail| - 1];
        }
      }
    }
  }

  /** Entries of a duplicate-free key list are duplicate-free. */
  lemma {:induction false} TabulateNoDuplicates<T(!new)>(xs: seq<T>)
    ensures NoDuplicates(Tabulate(xs))
  {
    var es := Tabulate(xs);
    var ds := Distinct(xs);
    forall a, b | 0 <= a < b < |es|
      ensures es[a] != es[b]
    {
      assert es[a].key == ds[a] && es[b].key == ds[b];
    }
  }

  /**
   * `top` is a possible `counts.head(n)` of the group sizes sorted largest first:
   * up to `n` distinct values of `xs` with their counts, largest first, and no
   * value left out occurring more often than the last one listed. Which of several
   * equal counts comes first is not fixed by pandas, and this predicate leaves it open.
   */
  ghost predicate IsTopList<T(!new)>(xs: seq<T>, n: nat, top: seq<Entry<T>>) {
    && |top| == Min(n, |set x | x in xs|)
    && (forall i :: 0 <= i < |top| ==> top[i].key in xs && top[i].count == Count(xs, top[i].key))
    && (forall i, j :: 0 <= i < j < |top| ==> top[i].key != top[j].key)
    && NonIncreasing(top)
    && (|top| > 0 ==> forall x :: x in xs && (forall i :: 0 <= i < |top| ==> top[i].key != x) ==> Count(xs, x) <= top[|top| - 1].count)
  }

  /** `x` occurs in `xs` and no value occurs more often: a key `value_counts().index[0]` may report. */
  ghost predicate MostCommon<T>(xs: seq<T>, x: T) {
    x in xs && forall y :: y in xs ==> Count(xs, y) <= Count(xs, x)
  }

  /** One top list of `xs`: the values in first-appearance order, stably sorted by count. */
  function TopCounts<T(==,!new)>(xs: seq<T>, n: nat): (top: seq<Entry<T>>)
    ensures IsTopList(xs, n, top)
  {
    var es := Tabulate(xs);
    TabulateNoDuplicates(xs);
    var top := Select(es, n);
    SelectMembers(es, n);
    SelectOrdered(es, n);
    SelectComplete(es, n);
    TopCountsFacts(xs, es, top);
    assert |top| == Min(n, UniqueCount(xs));
    top
  }

  lemma {:induction false} TopCountsFacts<T(!new)>(xs: seq<T>, es: seq<Entry<T>>, top: seq<Entry<T>>)
    requires es == Tabulate(xs)
    requires forall e :: e in top ==> e in es
    requires NoDuplicates(top)
    requires |top| > 0 ==> LeftOutAtMost(es, top, top[|top| - 1].count)
    ensures forall i :: 0 <= i < |top| ==> top[i].key in xs && top[i].count == Count(xs, top[i].key)
    ensures forall i, j :: 0 <= i < j < |top| ==> top[i].key != top[j].key
    ensures |top| > 0 ==> forall x :: x in xs && (forall i :: 0 <= i < |top| ==> top[i].key != x) ==> Count(xs, x) <= top[|top| - 1].count
  {
    var ds := Distinct(xs);
    forall i | 0 <= i < |top|
      ensures top[i].key in xs && top[i].count == Count(xs, top[i].key)
    {
      assert top[i] in es;
      var k :| 0 <= k < |es| && es[k] == top[i];
      assert es[k].key == ds[k];
    }
    forall i, j | 0 <= i < j < |top|
      ensures top[i].key != top[j].key
    {
      assert top[i] in es && top[j] in es;
      var a :| 0 <= a < |es| && es[a] == top[i];
      var b :| 0 <= b < |es| && es[b] == top[j];
      assert top[i].count == Count(xs, top[i].key) && top[j].count == Count(xs, top[j].key);
    }
    if |top| > 0 {
      forall x | x in xs && (forall i :: 0 <= i < |top| ==> top[i].key != x)
        ensures Count(xs, x) <= top[|top| - 1].count
      {
        assert x in ds;
        var k :| 0 <= k < |ds| && ds[k] == x;
        var e := es[k];
        assert e.key == x;
        assert e !in top;
      }
    }
  }

  /** The first of the top entries is a most frequent value: nothing occurs more often. */
  lemma {:induction false} MostFrequentFirst<T(!new)>(xs: seq<T>, n: nat, x: T)
    requires n > 0 && x in xs
    ensures |TopCounts(xs, n)| > 0
    ensures Count(xs, x) <= TopCounts(xs, n)[0].count
  {
    var top := TopCounts(xs, n);
    assert x in (set y | y in xs);
    if i :| 0 <= i < |top| && top[i].key == x {
      assert top[i].count <= top[0].count;
    } else {
      assert top[|top| - 1].count <= top[0].count;
    }
  }
}
