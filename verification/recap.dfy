/**
 * scripts/process_netflix_data.py ("Recap"): the 2025 filters, the breakdowns,
 * streak, episode-only binges with threshold 4, device simplification, the
 * collect-then-take-first personality and the fun-fact grid.
 */
module Recap {
  import opened Common
  import opened Text
  import opened Tally
  import opened Viewing
  import opened Streaks
  import opened Binges
  import opened RecapParsing

  // ---------------------------------------------------------------------------
  // Row filters

  /** Supplemental Video Type is empty: missing, or the empty string. */
  predicate MainContent(r: ViewingRecord) {
    r.supplemental.None? || r.supplemental == Some("")
  }

  /** The filters of lines 184-194: started in 2025, positive duration, at least a minute, main content. */
  predicate Keep(r: ViewingRecord) {
    && r.year == 2025
    && ParseDuration(r.duration) > 0
    && ParseDuration(r.duration) >= 60
    && MainContent(r)
  }

  /** `Keep` as one condition: the "> 0" filter adds nothing to the one-minute filter. */
  lemma {:induction false} KeepIff(r: ViewingRecord)
    ensures Keep(r) <==> r.year == 2025 && ParseDuration(r.duration) >= 60 && MainContent(r)
  {
  }

  /** The rows that survive the filters, in their original order: each row as often as before if kept, else never. */
  function Kept(rs: seq<ViewingRecord>): (ks: seq<ViewingRecord>)
    ensures forall i :: 0 <= i < |ks| ==> Keep(ks[i])
    ensures forall r :: Count(ks, r) == if Keep(r) then Count(rs, r) else 0
  {
    if |rs| == 0 then []
    else
      var rest := Kept(rs[1..]);
      var ks := if Keep(rs[0]) then [rs[0]] + rest else rest;
      assert forall r :: Count(rs, r) == (if rs[0] == r then 1 else 0) + Count(rs[1..], r);
      assert Keep(rs[0]) ==> forall r :: Count(ks, r) == (if rs[0] == r then 1 else 0) + Count(rest, r);
      ks
  }

  // ---------------------------------------------------------------------------
  // Per-row values of the kept rows

  predicate AllTitled(ks: seq<ViewingRecord>) {
    forall i :: 0 <= i < |ks| ==> ks[i].title.Some?
  }

  function Info(r: ViewingRecord): ShowInfo
    requires r.title.Some?
  {
    ExtractShowInfo(r.title.value)
  }

  /** The Show column. */
  function Shows(ks: seq<ViewingRecord>): (s: seq<string>)
    requires AllTitled(ks)
    ensures |s| == |ks| && forall i :: 0 <= i < |ks| ==> s[i] == Info(ks[i]).show
  {
    seq(|ks|, i requires 0 <= i < |ks| => Info(ks[i]).show)
  }

  /** Total watch time in seconds; every kept row adds at least a minute. */
  function TotalSeconds(ks: seq<ViewingRecord>): (t: nat)
    ensures (forall i :: 0 <= i < |ks| ==> Keep(ks[i])) ==> t >= 60 * |ks|
  {
    if |ks| == 0 then 0 else ParseDuration(ks[0].duration) + TotalSeconds(ks[1..])
  }

  /** The Is_Episode column. */
  function EpisodeFlags(ks: seq<ViewingRecord>): (f: seq<bool>)
    requires AllTitled(ks)
    ensures |f| == |ks| && forall i :: 0 <= i < |ks| ==> f[i] == Info(ks[i]).isEpisode
  {
    seq(|ks|, i requires 0 <= i < |ks| => Info(ks[i]).isEpisode)
  }

  /** The mask selecting the episode rows whose (date, show) key is `k`: the rows of group `k` at line 264. */
  function GroupMask(ks: seq<ViewingRecord>, k: GroupKey): (f: seq<bool>)
    requires AllTitled(ks)
    ensures |f| == |ks| && forall i :: 0 <= i < |ks| ==> f[i] == (Info(ks[i]).isEpisode && RowKey(ks[i]) == k)
  {
    seq(|ks|, i requires 0 <= i < |ks| => Info(ks[i]).isEpisode && RowKey(ks[i]) == k)
  }

  /**
   * Number of rows that are episodes, the length of the frame the Is_Episode mask selects:
   * none exactly when every row is a movie, all exactly when none is.
   */
  function EpisodeCount(ks: seq<ViewingRecord>): (n: nat)
    requires AllTitled(ks)
    ensures n == Count(EpisodeFlags(ks), true)
    ensures n <= |ks|
    ensures n == 0 <==> forall i :: 0 <= i < |ks| ==> !Info(ks[i]).isEpisode
    ensures n == |ks| <==> forall i :: 0 <= i < |ks| ==> Info(ks[i]).isEpisode
  {
    if |ks| == 0 then 0
    else
      var rest := EpisodeCount(ks[1..]);
      assert EpisodeFlags(ks)[1..] == EpisodeFlags(ks[1..]);
      MaskCount(EpisodeFlags(ks));
      (if Info(ks[0]).isEpisode then 1 else 0) + rest
  }

  /** The (date, show) key of a row. */
  function RowKey(r: ViewingRecord): GroupKey
    requires r.title.Some?
  {
    GroupKey(r.day, Info(r).show)
  }

  /** The (date, show) keys of the episode rows, the groups of line 264. */
  function EpisodeKeys(ks: seq<ViewingRecord>): (keys: seq<GroupKey>)
    requires AllTitled(ks)
    ensures |keys| == EpisodeCount(ks)
  {
    if |ks| == 0 then []
    else
      var rest := EpisodeKeys(ks[1..]);
      if Info(ks[0]).isEpisode then [RowKey(ks[0])] + rest else rest
  }

  /** Each key occurs in the group keys as often as the mask of its group selects rows: the group sizes of line 264. */
  lemma {:induction false} EpisodeKeysCount(ks: seq<ViewingRecord>, k: GroupKey)
    requires AllTitled(ks)
    ensures Count(EpisodeKeys(ks), k) == Count(GroupMask(ks, k), true)
  {
    if |ks| > 0 {
      var rest := ks[1..];
      EpisodeKeysCount(rest, k);
      assert GroupMask(ks, k)[1..] == GroupMask(rest, k);
      if Info(ks[0]).isEpisode {
        var keys := EpisodeKeys(ks);
        assert keys == [RowKey(ks[0])] + EpisodeKeys(rest);
        assert keys[1..] == EpisodeKeys(rest);
      }
    }
  }

  /** The group keys are the keys of the episode rows: each episode row has its key there, and no other key occurs. */
  lemma {:induction false} EpisodeKeysMembers(ks: seq<ViewingRecord>)
    requires AllTitled(ks)
    ensures forall i :: 0 <= i < |ks| && Info(ks[i]).isEpisode ==> RowKey(ks[i]) in EpisodeKeys(ks)
    ensures forall k :: k in EpisodeKeys(ks) ==> exists i :: 0 <= i < |ks| && Info(ks[i]).isEpisode && k == RowKey(ks[i])
  {
    if |ks| > 0 {
      var rest := ks[1..];
      EpisodeKeysMembers(rest);
      var keys := EpisodeKeys(ks);
      assert forall i :: 1 <= i < |ks| ==> ks[i] == rest[i - 1];
      forall k | k in keys
        ensures exists i :: 0 <= i < |ks| && Info(ks[i]).isEpisode && k == RowKey(ks[i])
      {
        if Info(ks[0]).isEpisode && k == RowKey(ks[0]) {
        } else {
          assert k in EpisodeKeys(rest);
          var j :| 0 <= j < |rest| && Info(rest[j]).isEpisode && k == RowKey(rest[j]);
          assert ks[j + 1] == rest[j];
        }
      }
    }
  }

  /** The Device Type cells that are not empty, which is what `value_counts()` counts. */
  function Devices(ks: seq<ViewingRecord>): seq<string> {
    if |ks| == 0 then []
    else (if ks[0].device.Some? then [ks[0].device.value] else []) + Devices(ks[1..])
  }

  // ---------------------------------------------------------------------------
  // Device simplification

  /**
   * Lines 291-296: a device name becomes "Smart TV" exactly when it contains "TV";
   * otherwise "iPhone" exactly when it contains that, then "Android"; any other
   * name stays as it is.
   */
  function SimplifyDevice(d: string): (r: string)
    ensures r == "Smart TV" <==> Contains(d, "TV")
    ensures !Contains(d, "TV") ==> (r == "iPhone" <==> Contains(d, "iPhone"))
    ensures !Contains(d, "TV") && !Contains(d, "iPhone") ==> (r == "Android" <==> Contains(d, "Android"))
    ensures r == d || r == "Smart TV" || r == "iPhone" || r == "Android"
  {
    SmartTvContainsTv(d);
    FamilyNames();
    if Contains(d, "TV") || Contains(d, "Smart TV") then "Smart TV"
    else if Contains(d, "iPhone") then "iPhone"
    else if Contains(d, "Android") then "Android"
    else d
  }

  /** Each simplified name contains the word that selects it. */
  lemma {:induction false} FamilyNames()
    ensures Contains("Smart TV", "TV") && Contains("iPhone", "iPhone") && Contains("Android", "Android")
  {
    assert StartsWith("Smart TV"[6..], "TV");
    assert StartsWith("iPhone", "iPhone");
    assert StartsWith("Android", "Android");
  }

  /** The "Smart TV" test never decides anything: every name containing "Smart TV" contains "TV". */
  lemma {:induction false} SmartTvContainsTv(d: string)
    ensures Contains(d, "Smart TV") ==> Contains(d, "TV")
  {
    if Contains(d, "Smart TV") {
      ContainsIff(d, "Smart TV");
      var i :| OccursAt(d, "Smart TV", i);
      assert d[i + 6..i + 8] == d[i..i + 8][6..8];
      assert OccursAt(d, "TV", i + 6);
      ContainsIff(d, "TV");
    }
  }

  /** Simplifying twice is simplifying once. */
  lemma {:induction false} SimplifyDeviceIdempotent(d: string)
    ensures SimplifyDevice(SimplifyDevice(d)) == SimplifyDevice(d)
  {
    var s := SimplifyDevice(d);
    if s == "Smart TV" {
      SmartTvFixed();
    } else if s == "iPhone" {
      IPhoneFixed();
    } else if s == "Android" {
      AndroidFixed();
    }
  }

  lemma {:induction false} SmartTvFixed()
    ensures SimplifyDevice("Smart TV") == "Smart TV"
  {
    assert StartsWith("Smart TV"[6..], "TV");
  }

  lemma {:induction false} IPhoneFixed()
    ensures SimplifyDevice("iPhone") == "iPhone"
  {
    NotContains("iPhone", "TV", 'T');
    NotContains("iPhone", "Smart TV", 'S');
    assert StartsWith("iPhone", "iPhone");
  }

  lemma {:induction false} AndroidFixed()
    ensures SimplifyDevice("Android") == "Android"
  {
    NotContains("Android", "TV", 'T');
    NotContains("Android", "Smart TV", 'S');
    NotContains("Android", "iPhone", 'P');
    assert StartsWith("Android", "Android");
  }

  // ---------------------------------------------------------------------------
  // The statistics

  /** The viewer types of `determine_personality`. */
  datatype Trait =
    | PlotTwistAddict | MarathonRunner | AfterHoursExplorer | SerialChiller
    | CouchCritic | WeekendWanderer | SteadyStreamer | CasualViewer

  /** The icons of the fun-fact grid. */
  datatype FactKind = Clock | Grid | Moon | Calendar

  /**
   * The statistics dictionary. Durations stay in whole seconds (`totalSeconds`)
   * and days are day numbers; `peakMonth`, `favoriteDay` are indexes into the
   * canonical month and weekday lists. Minutes per show and the rounded hour and
   * day totals are not kept.
   */
  datatype RecapStats = RecapStats(
    totalTitles: nat,
    uniqueShows: nat,
    totalSeconds: nat,
    topShows: seq<Entry<string>>,
    numberOneShow: string,
    numberOneCount: nat,
    monthly: MonthTally,
    peakMonth: nat,
    peakMonthCount: nat,
    weekly: DayTally,
    favoriteDay: nat,
    favoriteDayCount: nat,
    timeCategories: BucketTally,
    peakTime: TimeBucket,
    longestStreak: nat,
    bingeSessions: nat,
    biggestBinge: nat,
    biggestBingeShow: string,
    activeDays: nat,
    movies: nat,
    episodes: nat,
    topDevice: string,
    firstDay: int,
    lastDay: int)

  /** The statistics with the personality and fun facts derived from them. */
  datatype RecapReport = RecapReport(stats: RecapStats, personality: Trait, funFacts: seq<FactKind>)

  /** `x or 1`: a zero total counts as 1 in a ratio. */
  function OrOne(x: nat): nat {
    if x == 0 then 1 else x
  }

  /** Night Owl share above one half: `night / (total or 1) > 0.5`, cross-multiplied. */
  predicate MostlyNight(s: RecapStats) {
    2 * s.timeCategories[3] > OrOne(Sum(s.timeCategories))
  }

  /** Weekend share above 0.4: `(Saturday + Sunday) / (total or 1) > 0.4`, cross-multiplied. */
  predicate MostlyWeekend(s: RecapStats) {
    5 * (s.weekly[5] + s.weekly[6]) > 2 * OrOne(Sum(s.weekly))
  }

  /** The cross-multiplied night test is the ratio test of lines 78-80 and 97. */
  lemma {:induction false} MostlyNightRatio(s: RecapStats)
    ensures MostlyNight(s) <==> (s.timeCategories[3] as real) / (OrOne(Sum(s.timeCategories)) as real) > 0.5
  {
    ShareAbove(s.timeCategories[3], OrOne(Sum(s.timeCategories)), 1, 2);
  }

  /** The cross-multiplied weekend test is the ratio test of lines 82-84 and 113. */
  lemma {:induction false} MostlyWeekendRatio(s: RecapStats)
    ensures MostlyWeekend(s) <==> ((s.weekly[5] + s.weekly[6]) as real) / (OrOne(Sum(s.weekly)) as real) > 0.4
  {
    ShareAbove(s.weekly[5] + s.weekly[6], OrOne(Sum(s.weekly)), 2, 5);
  }

  /** A share `n / t` exceeds `a / b` exactly when `b * n > a * t`. */
  lemma {:induction false} ShareAbove(n: nat, t: nat, a: nat, b: nat)
    requires t > 0 && b > 0
    ensures b * n > a * t <==> (n as real) / (t as real) > (a as real) / (b as real)
  {
    var x := (n as real) / (t as real);
    var y := (a as real) / (b as real);
    assert x * (t as real) == n as real;
    assert y * (b as real) == a as real;
    assert x > y <==> x * (t as real) * (b as real) > y * (b as real) * (t as real);
  }

  /** The condition of each personality rule. */
  predicate Holds(s: RecapStats, t: Trait) {
    match t
    case PlotTwistAddict => s.uniqueShows > 100
    case MarathonRunner => s.longestStreak > 20 && s.bingeSessions > 40
    case AfterHoursExplorer => MostlyNight(s)
    case SerialChiller => s.bingeSessions > 50
    case CouchCritic => s.movies > 150 && s.episodes > 400
    case WeekendWanderer => MostlyWeekend(s)
    case SteadyStreamer => s.activeDays > 200
    case CasualViewer => false
  }

  /** The rules in the order the function tests them. */
  const RuleOrder: seq<Trait> :=
    [PlotTwistAddict, MarathonRunner, AfterHoursExplorer, SerialChiller, CouchCritic, WeekendWanderer, SteadyStreamer]

  /** Position of a rule in `RuleOrder`; the default comes after all of them. */
  function Rank(t: Trait): (i: nat)
    ensures i <= |RuleOrder| && (i < |RuleOrder| ==> RuleOrder[i] == t)
    ensures i == |RuleOrder| <==> t == CasualViewer
  {
    match t
    case PlotTwistAddict => 0
    case MarathonRunner => 1
    case AfterHoursExplorer => 2
    case SerialChiller => 3
    case CouchCritic => 4
    case WeekendWanderer => 5
    case SteadyStreamer => 6
    case CasualViewer => 7
  }

  /** The `personalities` list: every rule of `rules` that holds, in order. */
  function Matching(s: RecapStats, rules: seq<Trait>): (m: seq<Trait>)
    ensures forall t :: t in m <==> t in rules && Holds(s, t)
  {
    if |rules| == 0 then []
    else (if Holds(s, rules[0]) then [rules[0]] else []) + Matching(s, rules[1..])
  }

  /** The head of the collected list is the first rule, in order, that holds. */
  lemma {:induction false} MatchingFirst(s: RecapStats, rules: seq<Trait>, i: nat)
    requires i < |rules| && Holds(s, rules[i])
    requires forall j :: 0 <= j < i ==> !Holds(s, rules[j])
    ensures |Matching(s, rules)| > 0 && Matching(s, rules)[0] == rules[i]
    decreases i
  {
    if i > 0 {
      MatchingFirst(s, rules[1..], i - 1);
    }
  }

  /**
   * `determine_personality`: the first rule in order whose condition holds, and
   * "The Casual Viewer" exactly when none does.
   */
  function Personality(s: RecapStats): (t: Trait)
    ensures t == CasualViewer <==> forall i :: 0 <= i < |RuleOrder| ==> !Holds(s, RuleOrder[i])
    ensures t != CasualViewer ==> Holds(s, t) && forall i :: 0 <= i < Rank(t) ==> !Holds(s, RuleOrder[i])
  {
    var m := Matching(s, RuleOrder);
    RuleOrderRanked();
    MatchingHeadFirst(s, RuleOrder);
    if |m| == 0 then
      assert forall i :: 0 <= i < |RuleOrder| ==> RuleOrder[i] in RuleOrder;
      CasualViewer
    else
      assert m[0] in m;
      m[0]
  }

  lemma {:induction false} RuleOrderRanked()
    ensures forall i :: 0 <= i < |RuleOrder| ==> Rank(RuleOrder[i]) == i
    ensures forall i, j :: 0 <= i < j < |RuleOrder| ==> Rank(RuleOrder[i]) < Rank(RuleOrder[j])
  {
  }

  /** Over rules in rank order, no rule ranked before the head of the collected list holds. */
  lemma {:induction false} MatchingHeadFirst(s: RecapStats, rules: seq<Trait>)
    requires forall i, j :: 0 <= i < j < |rules| ==> Rank(rules[i]) < Rank(rules[j])
    ensures var m := Matching(s, rules);
            |m| > 0 ==> forall j :: 0 <= j < |rules| && Rank(rules[j]) < Rank(m[0]) ==> !Holds(s, rules[j])
  {
    if |rules| > 0 {
      var m := Matching(s, rules);
      var rest := Matching(s, rules[1..]);
      MatchingHeadFirst(s, rules[1..]);
      if !Holds(s, rules[0]) {
        assert m == rest;
        forall j | 0 < j < |rules|
          ensures rules[j] == rules[1..][j - 1]
        {
        }
      }
    }
  }

  // ---------------------------------------------------------------------------
  // generate_fun_facts

  /**
   * The condition of each fun fact. The hour total is numpy's `round(seconds / 3600, 1)`,
   * which rounds `seconds / 360` tenths half to even; the night share is Python's
   * `round` of the percentage, also half to even.
   */
  predicate FactHolds(s: RecapStats, k: FactKind) {
    match k
    case Clock => RoundHalfEven(s.totalSeconds, 360) > 0
    case Grid => s.uniqueShows > 0
    case Moon => RoundHalfEven(100 * s.timeCategories[3], OrOne(Sum(s.timeCategories))) > 20
    case Calendar => s.activeDays > 0
  }

  /** The rounded hour total is positive exactly from 181 seconds: 180 seconds is 0.05 hours, which rounds to 0.0. */
  lemma {:induction false} ClockThreshold(seconds: nat)
    ensures RoundHalfEven(seconds, 360) > 0 <==> seconds > 180
  {
    var r := RoundHalfEven(seconds, 360);
    if seconds == 180 {
      assert r <= 1;
      assert r != 1;
    }
  }

  /** The rounded night percentage exceeds 20 exactly when the share exceeds 20.5%, since 20.5 rounds to 20. */
  lemma {:induction false} MoonThreshold(night: nat, total: nat)
    requires total > 0
    ensures RoundHalfEven(100 * night, total) > 20 <==> 200 * night > 41 * total
  {
    var r := RoundHalfEven(100 * night, total);
    if 200 * night > 41 * total {
      if r <= 20 {
        MulAtMost(2 * total, r, 20);
      }
    } else if r >= 22 {
      MulAtMost(2 * total, 22, r);
    }
  }

  lemma {:induction false} MulAtMost(t: nat, a: nat, b: nat)
    requires a <= b
    ensures t * a <= t * b
  {
  }

  const FactOrder: seq<FactKind> := [Clock, Grid, Moon, Calendar]

  function FactRank(k: FactKind): (i: nat)
    ensures i < |FactOrder| && FactOrder[i] == k
  {
    match k
    case Clock => 0
    case Grid => 1
    case Moon => 2
    case Calendar => 3
  }

  /** The facts of `kinds` whose condition holds, in order. */
  function FactsOf(s: RecapStats, kinds: seq<FactKind>): (fs: seq<FactKind>)
    ensures |fs| <= |kinds|
    ensures forall k :: k in fs <==> k in kinds && FactHolds(s, k)
  {
    if |kinds| == 0 then []
    else (if FactHolds(s, kinds[0]) then [kinds[0]] else []) + FactsOf(s, kinds[1..])
  }

  /** Facts listed in the order of `FactOrder`. */
  predicate RankOrdered(fs: seq<FactKind>) {
    forall i, j :: 0 <= i < j < |fs| ==> FactRank(fs[i]) < FactRank(fs[j])
  }

  /** A selection from a list in rank order is in rank order. */
  lemma {:induction false} FactsOfOrdered(s: RecapStats, kinds: seq<FactKind>)
    requires RankOrdered(kinds)
    ensures RankOrdered(FactsOf(s, kinds))
  {
    if |kinds| > 0 {
      var fs := FactsOf(s, kinds);
      var rest := FactsOf(s, kinds[1..]);
      FactsOfOrdered(s, kinds[1..]);
      if FactHolds(s, kinds[0]) {
        assert fs == [kinds[0]] + rest;
        forall i, j | 0 <= i < j < |fs|
          ensures FactRank(fs[i]) < FactRank(fs[j])
        {
          if i == 0 {
            assert fs[0] == kinds[0] && fs[j] == rest[j - 1];
            assert rest[j - 1] in rest;
            RankedAfterHead(s, kinds, rest[j - 1]);
          } else {
            assert fs[i] == rest[i - 1] && fs[j] == rest[j - 1];
            assert FactRank(rest[i - 1]) < FactRank(rest[j - 1]);
          }
        }
      } else {
        assert fs == rest;
      }
    }
  }

  lemma {:induction false} RankedAfterHead(s: RecapStats, kinds: seq<FactKind>, k: FactKind)
    requires |kinds| > 0 && RankOrdered(kinds)
    requires k in FactsOf(s, kinds[1..])
    ensures FactRank(kinds[0]) < FactRank(k)
  {
    var j :| 0 <= j < |kinds[1..]| && kinds[1..][j] == k;
    assert kinds[j + 1] == k;
  }

  /**
   * `generate_fun_facts`: exactly the facts whose condition holds, in the fixed
   * order clock, grid, moon, calendar; at most four, so the final `[:4]` keeps them all.
   */
  function FunFacts(s: RecapStats): (fs: seq<FactKind>)
    ensures forall k :: k in fs <==> FactHolds(s, k)
    ensures RankOrdered(fs)
    ensures |fs| <= 4
  {
    var all := FactsOf(s, FactOrder);
    FactsOfOrdered(s, FactOrder);
    assert forall k: FactKind :: k in FactOrder by {
      forall k: FactKind ensures k in FactOrder {
        assert FactOrder[FactRank(k)] == k;
      }
    }
    assert |all| <= 4;
    var fs := TakeAtMost(all, 4);
    assert fs == all[..|all|] == all;
    fs
  }

  /** `facts[:n]`: Python's slice keeps the whole list when it is shorter than `n`. */
  function TakeAtMost(fs: seq<FactKind>, n: nat): (r: seq<FactKind>)
    ensures |r| == Min(n, |fs|) && r == fs[..|r|]
  {
    if |fs| <= n then fs else fs[..n]
  }

  // ---------------------------------------------------------------------------
  // process_netflix_data, after loading

  /** `dev` is a most named device, simplified; "Unknown" when no row names a device. */
  ghost predicate TopDeviceOf(ks: seq<ViewingRecord>, dev: string) {
    var ds := Devices(ks);
    && (|ds| == 0 ==> dev == "Unknown")
    && (|ds| > 0 ==> exists d :: MostCommon(ds, d) && dev == SimplifyDevice(d))
  }

  /** `device_counts.index[0]`, simplified: a device no other device outnumbers. */
  function TopDevice(ks: seq<ViewingRecord>): (dev: string)
    ensures TopDeviceOf(ks, dev)
  {
    var ds := Devices(ks);
    var top := TopCounts(ds, 1);
    if |top| == 0 then
      UnknownFixed();
      SimplifyDevice("Unknown")
    else
      var d := top[0].key;
      assert MostCommon(ds, d);
      SimplifyDevice(d)
  }

  /** "Unknown" holds none of the device words, so simplifying leaves it. */
  lemma {:induction false} UnknownFixed()
    ensures SimplifyDevice("Unknown") == "Unknown"
  {
    NotContains("Unknown", "TV", 'T');
    NotContains("Unknown", "iPhone", 'P');
    NotContains("Unknown", "Android", 'A');
  }

  /** The title counts: totals, distinct and top shows, episodes and movies, the device. */
  ghost predicate TitleStats(ks: seq<ViewingRecord>, s: RecapStats)
    requires AllTitled(ks)
  {
    && s.totalTitles == |ks|
    && s.uniqueShows == |set x | x in Shows(ks)|
    && s.totalSeconds == TotalSeconds(ks)
    && IsTopList(Shows(ks), 10, s.topShows)
    && (|s.topShows| > 0 ==> s.numberOneShow == s.topShows[0].key && s.numberOneCount == s.topShows[0].count)
    && s.episodes == EpisodeCount(ks) && s.movies + s.episodes == |ks|
    && TopDeviceOf(ks, s.topDevice)
  }

  /** The per-month, per-weekday and per-time-of-day counts and their first maxima. */
  ghost predicate CalendarStats(ks: seq<ViewingRecord>, s: RecapStats) {
    && (forall m: nat :: m < 12 ==> s.monthly[m] == Count(MonthKeys(ks), m))
    && s.peakMonth == FirstMax(s.monthly) && s.peakMonthCount == s.monthly[s.peakMonth]
    && (forall d: nat :: d < 7 ==> s.weekly[d] == Count(WeekdayKeys(ks), d))
    && s.favoriteDay == FirstMax(s.weekly) && s.favoriteDayCount == s.weekly[s.favoriteDay]
    && (forall b: nat :: b < 4 ==> s.timeCategories[b] == Count(BucketKeys(ks), b))
    && s.peakTime == Buckets[FirstMax(s.timeCategories)]
  }

  /** The active days: how many, the longest run of consecutive ones, the first and the last. */
  ghost predicate DayStats(ks: seq<ViewingRecord>, s: RecapStats) {
    var dates := ActiveDates(Days(ks));
    && s.activeDays == |set d | d in Days(ks)|
    && 1 <= s.longestStreak <= s.activeDays
    && (exists i, j :: Run(dates, i, j) && j - i == s.longestStreak)
    && (forall i, j :: Run(dates, i, j) ==> j - i <= s.longestStreak)
    && s.firstDay in Days(ks) && s.lastDay in Days(ks)
    && (forall d :: d in Days(ks) ==> s.firstDay <= d <= s.lastDay)
  }

  /** The binge sessions (four or more episodes of a show on a day) and the biggest group. */
  ghost predicate BingeStats(ks: seq<ViewingRecord>, s: RecapStats)
    requires AllTitled(ks)
  {
    var keys := EpisodeKeys(ks);
    && s.bingeSessions == |GroupsAtLeast(keys, 4)|
    && s.biggestBinge == (if Biggest(keys).Some? then Biggest(keys).value.count else 0)
    && s.biggestBingeShow == (if s.biggestBinge >= 4 then Biggest(keys).value.key.show else "")
  }

  /** What every statistic of `s` is, for the kept rows `ks`. */
  ghost predicate Summarises(ks: seq<ViewingRecord>, s: RecapStats)
    requires AllTitled(ks)
  {
    TitleStats(ks, s) && CalendarStats(ks, s) && DayStats(ks, s) && BingeStats(ks, s)
  }

  /**
   * `process_netflix_data` from the parsed rows: an error where the script raises
   * (a kept row without a title, or no kept row at all), otherwise the statistics
   * with the personality and the fun facts computed from them.
   */
  method ProcessRecap(records: seq<ViewingRecord>) returns (r: Result<RecapReport>)
    ensures r.Err? <==> |Kept(records)| == 0 || !AllTitled(Kept(records))
    ensures r.Ok? ==> Summarises(Kept(records), r.value.stats)
    ensures r.Ok? ==> r.value.personality == Personality(r.value.stats)
    ensures r.Ok? ==> r.value.funFacts == FunFacts(r.value.stats)
  {
    var ks := Kept(records);
    if |ks| == 0 || !AllTitled(ks) {
      return Err("no titled 2025 viewing to summarise");
    }
    var s := Summarise(ks);
    return Ok(RecapReport(s, Personality(s), FunFacts(s)));
  }

  /** The statistics of lines 209-331 over non-empty kept rows that all have a title. */
  method Summarise(ks: seq<ViewingRecord>) returns (s: RecapStats)
    requires |ks| > 0 && AllTitled(ks)
    ensures Summarises(ks, s)
  {
    var shows := Shows(ks);
    var top := TopCounts(shows, 10);
    var monthly := Breakdown(MonthKeys(ks), 12);
    var weekly := Breakdown(WeekdayKeys(ks), 7);
    var buckets := Breakdown(BucketKeys(ks), 4);
    var peakMonth := FirstMax(monthly);
    var favoriteDay := FirstMax(weekly);
    var peakTime := FirstMax(buckets);
    var days := Days(ks);
    var dates := ActiveDates(days);
    ActiveDaysCount(days);
    assert days[0] in days;
    var streak := LongestStreak(dates);
    var keys := EpisodeKeys(ks);
    var big := Biggest(keys);
    var biggest := if big.Some? then big.value.count else 0;
    var bigShow := if biggest >= 4 then big.value.key.show else "";
    var episodes := EpisodeCount(ks);
    var first, last := dates[0], dates[|dates| - 1];
    assert first in dates && last in dates;
    forall d | d in days
      ensures first <= d <= last
    {
      EndsAreExtremes(dates, d);
    }
    s := RecapStats(
      |ks|, UniqueCount(shows), TotalSeconds(ks), top,
      if |top| > 0 then top[0].key else "Unknown",
      if |top| > 0 then top[0].count else 0,
      monthly, peakMonth, monthly[peakMonth],
      weekly, favoriteDay, weekly[favoriteDay],
      buckets, Buckets[peakTime],
      streak, BingeCount(keys, 4), biggest, bigShow, |dates|,
      |ks| - episodes, episodes, TopDevice(ks), first, last);
  }
}
