/**
 * Binge counting in both scripts: records grouped by (date, show) as
 * `groupby([date, show]).size()` does, the number of groups reaching a threshold,
 * and the biggest group as `idxmax()` finds it over the sorted group index.
 */
module Binges {
  import opened Common
  import opened Text
  import opened Tally

  /** The (date, show) key of a group; the date as a day number. */
  datatype GroupKey = GroupKey(day: int, show: string)

  /** The order of the group index: by date, then by show name. */
  predicate KeyLess(a: GroupKey, b: GroupKey) {
    a.day < b.day || (a.day == b.day && Less(a.show, b.show))
  }

  lemma {:induction false} KeyLessIrreflexive(a: GroupKey)
    ensures !KeyLess(a, a)
  {
    LessIrreflexive(a.show);
  }

  lemma {:induction false} KeyLessTransitive(a: GroupKey, b: GroupKey, c: GroupKey)
    requires KeyLess(a, b) && KeyLess(b, c)
    ensures KeyLess(a, c)
  {
    if a.day == b.day == c.day {
      LessTransitive(a.show, b.show, c.show);
    }
  }

  lemma {:induction false} KeyLessTotal(a: GroupKey, b: GroupKey)
    ensures a == b || KeyLess(a, b) || KeyLess(b, a)
  {
    LessTotal(a.show, b.show);
  }

  /** The keys of `ds` whose group in `keys` has at least `t` members, in the order of `ds`. */
  function Qualifying<K(==,!new)>(ds: seq<K>, keys: seq<K>, t: nat): (qs: seq<K>)
    requires NoDuplicates(ds)
    ensures forall k :: k in qs <==> k in ds && Count(keys, k) >= t
    ensures NoDuplicates(qs)
  {
    if |ds| == 0 then []
    else
      var rest := Qualifying(ds[1..], keys, t);
      assert forall k :: k in ds <==> k == ds[0] || k in ds[1..];
      assert ds[0] !in ds[1..];
      if Count(keys, ds[0]) >= t then [ds[0]] + rest else rest
  }

  /** The groups (keys) with at least `t` members. */
  ghost function GroupsAtLeast<K>(keys: seq<K>, t: nat): set<K> {
    set k | k in keys && Count(keys, k) >= t
  }

  /** Number of groups with at least `threshold` members: `(counts >= threshold).sum()`. */
  function BingeCount<K(==,!new)>(keys: seq<K>, threshold: nat): (n: nat)
    ensures n == |GroupsAtLeast(keys, threshold)|
  {
    var qs := Qualifying(Distinct(keys), keys, threshold);
    NoDuplicatesCard(qs);
    assert (set k | k in qs) == GroupsAtLeast(keys, threshold);
    |qs|
  }

  /** `e` beats `f`: a bigger group, or as big and earlier in the index. */
  predicate Beats(e: Entry<GroupKey>, f: Entry<GroupKey>) {
    e.count > f.count || (e.count == f.count && KeyLess(e.key, f.key))
  }

  /** The entry no other entry beats. */
  function Best(es: seq<Entry<GroupKey>>): (b: Entry<GroupKey>)
    requires |es| > 0
    ensures b in es
    ensures forall e :: e in es ==> e == b || !Beats(e, b)
  {
    if |es| == 1 then es[0]
    else
      var b := Best(es[1..]);
      BestStep(es, b);
      if Beats(es[0], b) then es[0] else b
  }

  lemma {:induction false} BestStep(es: seq<Entry<GroupKey>>, b: Entry<GroupKey>)
    requires |es| > 1 && b in es[1..]
    requires forall e :: e in es[1..] ==> e == b || !Beats(e, b)
    ensures var r := if Beats(es[0], b) then es[0] else b;
            r in es && forall e :: e in es ==> e == r || !Beats(e, r)
  {
    assert forall e :: e in es <==> e == es[0] || e in es[1..];
    if Beats(es[0], b) {
      forall e | e in es[1..] && e != es[0]
        ensures !Beats(e, es[0])
      {
        if Beats(e, es[0]) {
          BeatsTransitive(e, es[0], b);
          assert e == b;
          BeatsIrreflexive(b, es[0]);
        }
      }
    } else {
      forall e | e == es[0] && e != b
        ensures !Beats(e, b)
      {
      }
    }
  }

  lemma {:induction false} BeatsTransitive(e: Entry<GroupKey>, f: Entry<GroupKey>, g: Entry<GroupKey>)
    requires Beats(e, f) && Beats(f, g)
    ensures Beats(e, g)
  {
    if e.count == f.count == g.count {
      KeyLessTransitive(e.key, f.key, g.key);
    }
  }

  lemma {:induction false} BeatsIrreflexive(e: Entry<GroupKey>, f: Entry<GroupKey>)
    requires Beats(e, f)
    ensures !Beats(f, e)
  {
    if e.count == f.count {
      if KeyLess(f.key, e.key) {
        KeyLessTransitive(e.key, f.key, e.key);
        KeyLessIrreflexive(e.key);
      }
    }
  }

  /**
   * `counts.max()` and `counts.idxmax()` over the group sizes: the size of the
   * biggest group and its key, the first in (date, show) order among equally big
   * groups; None when there are no records.
   */
  function Biggest(keys: seq<GroupKey>): (r: Option<Entry<GroupKey>>)
    ensures r.None? <==> |keys| == 0
    ensures r.Some? ==> r.value.key in keys && r.value.count == Count(keys, r.value.key)
    ensures r.Some? ==> forall k :: k in keys ==> Count(keys, k) <= r.value.count
    ensures r.Some? ==> forall k :: k in keys && Count(keys, k) == r.value.count && k != r.value.key ==> KeyLess(r.value.key, k)
  {
    if |keys| == 0 then None
    else
      var es := Tabulate(keys);
      assert keys[0] in Distinct(keys);
      var b := Best(es);
      BestFacts(keys, es, b);
      Some(b)
  }

  lemma {:induction false} BestFacts(keys: seq<GroupKey>, es: seq<Entry<GroupKey>>, b: Entry<GroupKey>)
    requires es == Tabulate(keys) && b in es
    requires forall e :: e in es ==> e == b || !Beats(e, b)
    ensures b.key in keys && b.count == Count(keys, b.key)
    ensures forall k :: k in keys ==> Count(keys, k) <= b.count
    ensures forall k :: k in keys && Count(keys, k) == b.count && k != b.key ==> KeyLess(b.key, k)
  {
    var ds := Distinct(keys);
    var j :| 0 <= j < |es| && es[j] == b;
    assert b.key == ds[j];
    forall k | k in keys
      ensures Count(keys, k) <= b.count
      ensures Count(keys, k) == b.count && k != b.key ==> KeyLess(b.key, k)
    {
      assert k in ds;
      var i :| 0 <= i < |ds| && ds[i] == k;
      var e := es[i];
      assert e in es && e.key == k && e.count == Count(keys, k);
      KeyLessTotal(b.key, k);
    }
  }

  /** Biggest size, first in index order: exactly one group fits, and it is the one `Biggest` reports. */
  lemma {:induction false} BiggestUnique(keys: seq<GroupKey>, k: GroupKey)
    requires k in keys
    requires forall j :: j in keys ==> Count(keys, j) <= Count(keys, k)
    requires forall j :: j in keys && Count(keys, j) == Count(keys, k) && j != k ==> KeyLess(k, j)
    ensures Biggest(keys) == Some(Entry(k, Count(keys, k)))
  {
    var b := Biggest(keys).value;
    if b.key != k {
      KeyLessTransitive(b.key, k, b.key);
      KeyLessIrreflexive(b.key);
    }
  }

  /** Some group reaches the threshold exactly when the biggest one does. */
  lemma {:induction false} BingeExists(keys: seq<GroupKey>, t: nat)
    ensures BingeCount(keys, t) > 0 <==> Biggest(keys).Some? && Biggest(keys).value.count >= t
  {
    var g := GroupsAtLeast(keys, t);
    if |g| > 0 {
      var k :| k in g;
      assert Count(keys, k) >= t;
    }
    if Biggest(keys).Some? && Biggest(keys).value.count >= t {
      assert Biggest(keys).value.key in g;
    }
  }
}
