/**
 * scripts/process_data.py ("Wrapped"): show names cut at the first colon, the
 * optional year filter, a flat 45 minutes per row, the four time windows as
 * separate filters, binges over all rows with threshold 3, the if/elif
 * personality, the comparison facts and the choice of the year to summarise.
 */
module Wrapped {
  import opened Common
  import opened Text
  import opened Tally
  import opened Viewing
  import opened Streaks
  import opened Binges

  // ---------------------------------------------------------------------------
  // extract_show_name and the IsEpisode column

  /** `extract_show_name`: "Unknown" for a missing title, else the stripped text before the first ':'. */
  function ShowName(title: Option<string>): (r: string)
    ensures ':' !in r
    ensures title.Some? ==> r == Strip(title.value[..IndexOf(title.value, ':')])
  {
    match title
    case None => "Unknown"
    case Some(t) =>
      StripKeepsOut(Split(t, ':')[0], ':');
      Strip(Split(t, ':')[0])
  }

  /** `title.str.contains(':')`: missing (NaN) for a missing title. */
  function IsEpisode(title: Option<string>): (e: Option<bool>)
    ensures e.None? <==> title.None?
    ensures e == Some(true) <==> title.Some? && exists i :: 0 <= i < |title.value| && title.value[i] == ':'
  {
    match title
    case None => None
    case Some(t) => Some(':' in t)
  }

  /** Cutting a name a second time changes nothing. */
  lemma {:induction false} ShowNameIdempotent(title: Option<string>)
    ensures ShowName(Some(ShowName(title))) == ShowName(title)
  {
    var r := ShowName(title);
    IndexOfAbsent(r, ':');
    assert r[..|r|] == r;
    if title.Some? {
      StripIdempotent(title.value[..IndexOf(title.value, ':')]);
    } else {
      StripPadded([], r, []);
      assert [] + r + [] == r;
    }
  }

  /** A title that is not an episode keeps its whole text, stripped. */
  lemma {:induction false} MovieNameIsTitle(t: string)
    requires IsEpisode(Some(t)) == Some(false)
    ensures ShowName(Some(t)) == Strip(t)
  {
    IndexOfAbsent(t, ':');
    assert t[..|t|] == t;
  }

  /** An episode title "show: rest" is named after its show part. */
  lemma {:induction false} EpisodeNameIsShow(show: string, rest: string)
    requires ':' !in show
    ensures IsEpisode(Some(show + ":" + rest)) == Some(true)
    ensures ShowName(Some(show + ":" + rest)) == Strip(show)
  {
    var t := show + ":" + rest;
    assert t[|show|] == ':';
    IndexOfAt(t, ':', |show|);
    assert t[..|show|] == show;
  }

  // ---------------------------------------------------------------------------
  // The year filter

  /** `df[df['Year'] == year]`: the rows of that year, each as often as before. */
  function InYear(rs: seq<ViewingRecord>, year: int): (ks: seq<ViewingRecord>)
    ensures forall i :: 0 <= i < |ks| ==> ks[i].year == year
    ensures forall r :: Count(ks, r) == if r.year == year then Count(rs, r) else 0
  {
    if |rs| == 0 then []
    else
      var rest := InYear(rs[1..], year);
      var ks := if rs[0].year == year then [rs[0]] + rest else rest;
      assert forall r :: Count(rs, r) == (if rs[0] == r then 1 else 0) + Count(rs[1..], r);
      assert rs[0].year == year ==> forall r :: Count(ks, r) == (if rs[0] == r then 1 else 0) + Count(rest, r);
      ks
  }

  /** `if year:` filters only for a year that is given and not 0; `None` and 0 keep every row. */
  function Selected(rs: seq<ViewingRecord>, year: Option<int>): (ks: seq<ViewingRecord>)
    ensures year.None? || year == Some(0) ==> ks == rs
    ensures year.Some? && year.value != 0 ==> forall r :: Count(ks, r) == if r.year == year.value then Count(rs, r) else 0
  {
    if year.Some? && year.value != 0 then InYear(rs, year.value) else rs
  }

  /** A year some row has leaves at least that row after the filter. */
  lemma {:induction false} SelectedNonEmpty(rs: seq<ViewingRecord>, year: Option<int>, i: nat)
    requires i < |rs| && year.Some? && rs[i].year == year.value
    ensures |Selected(rs, year)| > 0
  {
    if year.value != 0 {
      var r := rs[i];
      CountPositive(rs, r);
      CountPositive(InYear(rs, year.value), r);
    }
  }

  /** `df['Year'].max()`. */
  function MaxYear(rs: seq<ViewingRecord>): (y: int)
    requires |rs| > 0
    ensures exists i :: 0 <= i < |rs| && rs[i].year == y
    ensures forall i :: 0 <= i < |rs| ==> rs[i].year <= y
  {
    if |rs| == 1 then rs[0].year
    else
      var m := MaxYear(rs[1..]);
      assert forall i :: 1 <= i < |rs| ==> rs[i] == rs[1..][i - 1];
      if rs[0].year >= m then rs[0].year else m
  }

  // ---------------------------------------------------------------------------
  // Per-row values

  /** The ShowName column. */
  function ShowNames(rs: seq<ViewingRecord>): (names: seq<string>)
    ensures |names| == |rs| && forall i :: 0 <= i < |rs| ==> names[i] == ShowName(rs[i].title)
  {
    seq(|rs|, i requires 0 <= i < |rs| => ShowName(rs[i].title))
  }

  /** The (date, show) key of every row, movies included. */
  function GroupKeys(rs: seq<ViewingRecord>): (keys: seq<GroupKey>)
    ensures |keys| == |rs| && forall i :: 0 <= i < |rs| ==> keys[i] == GroupKey(rs[i].day, ShowName(rs[i].title))
  {
    seq(|rs|, i requires 0 <= i < |rs| => GroupKey(rs[i].day, ShowName(rs[i].title)))
  }

  // ---------------------------------------------------------------------------
  // Estimated hours

  /**
   * `round(n * 0.75, 1)` in tenths of an hour. `n * 0.75` is exact in binary, so
   * `round` sees the exact value and sends a tie (odd `n`) to the even tenth.
   */
  function HoursTenths(n: nat): (t: nat)
    ensures 15 * n - 1 <= 2 * t <= 15 * n + 1
    ensures 2 * t != 15 * n ==> t % 2 == 0
  {
    RoundHalfEven(15 * n, 2)
  }

  /** The hour thresholds the personality and the facts test, in rows. */
  lemma {:induction false} HoursThresholds(n: nat)
    ensures HoursTenths(n) > 5000 <==> n >= 667
    ensures HoursTenths(n) > 2000 <==> n >= 267
    ensures HoursTenths(n) > 0 <==> n >= 1
  {
    var t := HoursTenths(n);
    if n >= 667 {
      assert 2 * t >= 15 * 667 - 1;
    }
    if n <= 666 {
      assert 2 * t <= 15 * 666 + 1;
    }
    if n >= 267 {
      assert 2 * t >= 15 * 267 - 1;
    }
    if n <= 266 {
      assert 2 * t <= 15 * 266 + 1;
    }
  }

  // ---------------------------------------------------------------------------
  // Hourly breakdown and time windows

  /** The keys from `lo` on with a positive count, ascending, each with its count. */
  function Present(counts: seq<nat>, lo: nat): (es: seq<Entry<nat>>)
    requires lo <= |counts|
    ensures forall i :: 0 <= i < |es| ==> lo <= es[i].key < |counts| && es[i].count == counts[es[i].key] > 0
    ensures forall i, j :: 0 <= i < j < |es| ==> es[i].key < es[j].key
    ensures forall k: nat :: lo <= k < |counts| ==> (counts[k] > 0 <==> Entry(k, counts[k]) in es)
    decreases |counts| - lo
  {
    if lo == |counts| then []
    else
      var rest := Present(counts, lo + 1);
      if counts[lo] > 0 then [Entry(lo, counts[lo])] + rest else rest
  }

  /** `value_counts().sort_index()` of the hour column: the hours that occur, ascending, with their counts. */
  function Hourly(rs: seq<ViewingRecord>): (es: seq<Entry<nat>>)
    ensures forall i :: 0 <= i < |es| ==> es[i].key < 24 && es[i].count == Count(HourKeys(rs), es[i].key) > 0
    ensures forall i, j :: 0 <= i < j < |es| ==> es[i].key < es[j].key
    ensures forall h: nat :: h < 24 ==> (h in HourKeys(rs) <==> Entry(h, Count(HourKeys(rs), h)) in es)
  {
    var counts := Breakdown(HourKeys(rs), 24);
    forall h: nat | h < 24
      ensures h in HourKeys(rs) <==> counts[h] > 0
    {
      CountPositive(HourKeys(rs), h);
    }
    Present(counts, 0)
  }

  /** The masks of lines 125-128, one per window. */
  predicate InWindow(hour: Hour, w: TimeBucket) {
    match w
    case Morning => hour >= 6 && hour < 12
    case Afternoon => hour >= 12 && hour < 18
    case Evening => hour >= 18 && hour < 22
    case NightOwl => hour >= 22 || hour < 6
  }

  /** `len(df[mask])`: the rows whose hour is in the window, which are the rows `get_time_category` puts in that bucket. */
  function WindowCount(rs: seq<ViewingRecord>, w: TimeBucket): (c: nat)
    ensures c == Count(BucketKeys(rs), BucketIndex(w))
  {
    if |rs| == 0 then 0
    else
      var rest := WindowCount(rs[1..], w);
      assert BucketKeys(rs)[1..] == BucketKeys(rs[1..]);
      var b := TimeCategory(rs[0].hour);
      assert InWindow(rs[0].hour, w) <==> b == w;
      assert BucketIndex(b) == BucketIndex(w) <==> b == w by {
        assert Buckets[BucketIndex(b)] == b && Buckets[BucketIndex(w)] == w;
      }
      (if InWindow(rs[0].hour, w) then 1 else 0) + rest
  }

  /**
   * The `time_cats` dictionary, in its key order. The four filters partition the
   * rows: their counts are the bucket breakdown and add up to the row count.
   */
  function TimeWindows(rs: seq<ViewingRecord>): (t: BucketTally)
    ensures t == Breakdown(BucketKeys(rs), 4)
    ensures Sum(t) == |rs|
  {
    var t := [WindowCount(rs, Morning), WindowCount(rs, Afternoon), WindowCount(rs, Evening), WindowCount(rs, NightOwl)];
    var b := Breakdown(BucketKeys(rs), 4);
    assert forall w :: w in Buckets ==> t[BucketIndex(w)] == b[BucketIndex(w)];
    assert Morning in Buckets && Afternoon in Buckets && Evening in Buckets && NightOwl in Buckets;
    t
  }

  // ---------------------------------------------------------------------------
  // The statistics

  /** The viewer types of `determine_personality`, in the order the chain tests them. */
  datatype Persona =
    | StreamingChampion | BingeMaster | NightOwlViewer | DevotedStreamer
    | Enthusiast | EarlyBird | CasualViewer

  /** The comparison facts of `generate_fun_facts`. */
  datatype Fact = TokyoFlights | Books | StreakTrophy | BingeMastery | MoreThanDays

  /**
   * The statistics dictionary. Hours are kept in tenths (`hoursTenths`); days are
   * day numbers; `peakMonth` and `favoriteDay` index the canonical month and weekday
   * lists. Keys the script sets only conditionally are options. The float
   * `estimated_days` is not kept.
   */
  datatype WrappedStats = WrappedStats(
    year: int,
    totalTitles: nat,
    uniqueShows: nat,
    hoursTenths: nat,
    topShows: seq<Entry<string>>,
    numberOne: Option<Entry<string>>,
    monthly: MonthTally,
    peakMonth: nat,
    peakMonthCount: nat,
    weekly: DayTally,
    favoriteDay: nat,
    favoriteDayCount: nat,
    hourly: seq<Entry<nat>>,
    timeCategories: BucketTally,
    peakTime: TimeBucket,
    bingeSessions: nat,
    biggestBinge: nat,
    biggestBingeShow: Option<string>,
    biggestBingeDate: Option<int>,
    longestStreak: nat,
    activeDays: nat)

  datatype WrappedReport = WrappedReport(stats: WrappedStats, personality: Persona, funFacts: seq<Fact>)

  // ---------------------------------------------------------------------------
  // determine_personality

  /** `'Night' in peak_time`, on the label of the peak bucket. */
  predicate NightLabel(b: TimeBucket) { Contains(BucketLabel(b), "Night") }

  /** `'Morning' in peak_time`. */
  predicate MorningLabel(b: TimeBucket) { Contains(BucketLabel(b), "Morning") }

  /** Of the four labels, only the night one contains "Night". */
  lemma {:induction false} NightWord(b: TimeBucket)
    ensures NightLabel(b) <==> b == NightOwl
  {
    if b == NightOwl {
      assert StartsWith(BucketLabel(b), "Night");
    } else {
      NotContains(BucketLabel(b), "Night", 'N');
    }
  }

  /** Of the four labels, only the morning one contains "Morning". */
  lemma {:induction false} MorningWord(b: TimeBucket)
    ensures MorningLabel(b) <==> b == Morning
  {
    if b == Morning {
      assert StartsWith(BucketLabel(b), "Morning");
    } else {
      NotContains(BucketLabel(b), "Morning", 'M');
    }
  }

  /** The condition of each branch of the chain. */
  predicate Applies(s: WrappedStats, p: Persona) {
    match p
    case StreamingChampion => s.hoursTenths > 5000
    case BingeMaster => s.bingeSessions > 50
    case NightOwlViewer => NightLabel(s.peakTime)
    case DevotedStreamer => s.longestStreak > 30
    case Enthusiast => s.hoursTenths > 2000
    case EarlyBird => MorningLabel(s.peakTime)
    case CasualViewer => false
  }

  const Chain: seq<Persona> :=
    [StreamingChampion, BingeMaster, NightOwlViewer, DevotedStreamer, Enthusiast, EarlyBird]

  function ChainRank(p: Persona): (i: nat)
    ensures i <= |Chain| && (i < |Chain| ==> Chain[i] == p)
    ensures i == |Chain| <==> p == CasualViewer
  {
    match p
    case StreamingChampion => 0
    case BingeMaster => 1
    case NightOwlViewer => 2
    case DevotedStreamer => 3
    case Enthusiast => 4
    case EarlyBird => 5
    case CasualViewer => 6
  }

  /**
   * `determine_personality`: the first branch of the chain whose condition holds,
   * and "The Casual Viewer" exactly when none does.
   */
  function Personality(s: WrappedStats): (p: Persona)
    ensures p == CasualViewer <==> forall q :: q in Chain ==> !Applies(s, q)
    ensures p != CasualViewer ==> Applies(s, p) && forall q :: q in Chain && ChainRank(q) < ChainRank(p) ==> !Applies(s, q)
  {
    var p :=
      if s.hoursTenths > 5000 then StreamingChampion
      else if s.bingeSessions > 50 then BingeMaster
      else if NightLabel(s.peakTime) then NightOwlViewer
      else if s.longestStreak > 30 then DevotedStreamer
      else if s.hoursTenths > 2000 then Enthusiast
      else if MorningLabel(s.peakTime) then EarlyBird
      else CasualViewer;
    ChainMembers();
    assert p != CasualViewer ==> Applies(s, p) && p in Chain;
    p
  }

  lemma {:induction false} ChainMembers()
    ensures forall p :: p in Chain <==> p != CasualViewer
  {
    forall p | p != CasualViewer
      ensures p in Chain
    {
      assert Chain[ChainRank(p)] == p;
    }
  }

  /** 667 rows or more make a Streaming Champion, whatever else the statistics say. */
  lemma {:induction false} ManyRowsChampion(s: WrappedStats)
    requires s.hoursTenths == HoursTenths(s.totalTitles) && s.totalTitles >= 667
    ensures Personality(s) == StreamingChampion
  {
    HoursThresholds(s.totalTitles);
  }

  // ---------------------------------------------------------------------------
  // generate_fun_facts

  predicate FactApplies(s: WrappedStats, f: Fact) {
    match f
    case TokyoFlights => s.hoursTenths > 0
    case Books => s.hoursTenths > 0
    case StreakTrophy => s.longestStreak > 7
    case BingeMastery => s.bingeSessions > 20
    case MoreThanDays => s.totalTitles > 365
  }

  function FactRank(f: Fact): nat {
    match f
    case TokyoFlights => 0
    case Books => 1
    case StreakTrophy => 2
    case BingeMastery => 3
    case MoreThanDays => 4
  }

  /**
   * `generate_fun_facts`: exactly the facts whose condition holds, in the order the
   * function appends them, at most five; a positive hour total gives the two time
   * comparisons, and they come first.
   */
  function FunFacts(s: WrappedStats): (fs: seq<Fact>)
    ensures forall f :: f in fs <==> FactApplies(s, f)
    ensures forall i, j :: 0 <= i < j < |fs| ==> FactRank(fs[i]) < FactRank(fs[j])
    ensures |fs| <= 5
    ensures s.hoursTenths > 0 <==> |fs| >= 2 && fs[0] == TokyoFlights && fs[1] == Books
  {
    (if s.hoursTenths > 0 then [TokyoFlights, Books] else [])
    + (if s.longestStreak > 7 then [StreakTrophy] else [])
    + (if s.bingeSessions > 20 then [BingeMastery] else [])
    + (if s.totalTitles > 365 then [MoreThanDays] else [])
  }

  // ---------------------------------------------------------------------------
  // calculate_stats

  /** The year, counts, hours and top shows. */
  ghost predicate TitleStats(ks: seq<ViewingRecord>, year: Option<int>, s: WrappedStats)
    requires |ks| > 0
  {
    && s.year == (if year.Some? && year.value != 0 then year.value else MaxYear(ks))
    && s.totalTitles == |ks|
    && s.uniqueShows == |set x | x in ShowNames(ks)|
    && s.hoursTenths == HoursTenths(|ks|)
    && IsTopList(ShowNames(ks), 10, s.topShows)
    && s.numberOne == (if |s.topShows| > 0 then Some(s.topShows[0]) else None)
  }

  /** The monthly, weekday, hourly and time-window counts and their first maxima. */
  ghost predicate CalendarStats(ks: seq<ViewingRecord>, s: WrappedStats) {
    && (forall m: nat :: m < 12 ==> s.monthly[m] == Count(MonthKeys(ks), m))
    && s.peakMonth == FirstMax(s.monthly) && s.peakMonthCount == s.monthly[s.peakMonth]
    && (forall d: nat :: d < 7 ==> s.weekly[d] == Count(WeekdayKeys(ks), d))
    && s.favoriteDay == FirstMax(s.weekly) && s.favoriteDayCount == s.weekly[s.favoriteDay]
    && s.hourly == Hourly(ks)
    && (forall b: nat :: b < 4 ==> s.timeCategories[b] == Count(BucketKeys(ks), b))
    && s.peakTime == Buckets[FirstMax(s.timeCategories)]
  }

  /** Binges over every row: groups of three or more, the biggest one only when one exists. */
  ghost predicate BingeStats(ks: seq<ViewingRecord>, s: WrappedStats) {
    var keys := GroupKeys(ks);
    && s.bingeSessions == |GroupsAtLeast(keys, 3)|
    && (s.bingeSessions == 0 ==> s.biggestBinge == 0 && s.biggestBingeShow.None? && s.biggestBingeDate.None?)
    && (s.bingeSessions > 0 ==>
          && Biggest(keys).Some?
          && s.biggestBinge == Biggest(keys).value.count >= 3
          && s.biggestBingeShow == Some(Biggest(keys).value.key.show)
          && s.biggestBingeDate == Some(Biggest(keys).value.key.day))
  }

  /** Active days and the longest streak over them. */
  ghost predicate DayStats(ks: seq<ViewingRecord>, s: WrappedStats) {
    var dates := ActiveDates(Days(ks));
    && s.activeDays == |set d | d in Days(ks)|
    && 1 <= s.longestStreak <= s.activeDays
    && (exists i, j :: Run(dates, i, j) && j - i == s.longestStreak)
    && (forall i, j :: Run(dates, i, j) ==> j - i <= s.longestStreak)
  }

  ghost predicate Summarises(ks: seq<ViewingRecord>, year: Option<int>, s: WrappedStats)
    requires |ks| > 0
  {
    TitleStats(ks, year, s) && CalendarStats(ks, s) && BingeStats(ks, s) && DayStats(ks, s)
  }

  /**
   * `calculate_stats`: the error object when the filter leaves no row, otherwise
   * the statistics of the selected rows with the personality and the facts.
   */
  method CalculateStats(records: seq<ViewingRecord>, year: Option<int>) returns (r: Result<WrappedReport>)
    ensures r.Err? <==> |Selected(records, year)| == 0
    ensures r.Err? ==> r.message == "No data found for the specified year"
    ensures r.Ok? ==> Summarises(Selected(records, year), year, r.value.stats)
    ensures r.Ok? ==> r.value.personality == Personality(r.value.stats)
    ensures r.Ok? ==> r.value.funFacts == FunFacts(r.value.stats)
  {
    var ks := Selected(records, year);
    if |ks| == 0 {
      return Err("No data found for the specified year");
    }
    var stats := StatsOf(ks, year);
    return Ok(WrappedReport(stats, Personality(stats), FunFacts(stats)));
  }

  /** The statistics of lines 73-164 over the selected rows, of which there is at least one. */
  method StatsOf(ks: seq<ViewingRecord>, year: Option<int>) returns (s: WrappedStats)
    requires |ks| > 0
    ensures Summarises(ks, year, s)
  {
    var names := ShowNames(ks);
    var top := TopCounts(names, 10);
    var monthly := Breakdown(MonthKeys(ks), 12);
    var weekly := Breakdown(WeekdayKeys(ks), 7);
    var windows := TimeWindows(ks);
    var peakMonth := FirstMax(monthly);
    var favoriteDay := FirstMax(weekly);
    var keys := GroupKeys(ks);
    var binges := BingeCount(keys, 3);
    BingeExists(keys, 3);
    var big := Biggest(keys);
    var days := Days(ks);
    var dates := ActiveDates(days);
    ActiveDaysCount(days);
    assert days[0] in days;
    var streak := LongestStreak(dates);
    s := WrappedStats(
      if year.Some? && year.value != 0 then year.value else MaxYear(ks),
      |ks|, UniqueCount(names), HoursTenths(|ks|), top,
      if |top| > 0 then Some(top[0]) else None,
      monthly, peakMonth, monthly[peakMonth], weekly, favoriteDay, weekly[favoriteDay],
      Hourly(ks), windows, Buckets[FirstMax(windows)],
      binges,
      if binges > 0 then big.value.count else 0,
      if binges > 0 then Some(big.value.key.show) else None,
      if binges > 0 then Some(big.value.key.day) else None,
      streak, |dates|);
  }

  // ---------------------------------------------------------------------------
  // Year selection in main

  /** The `Year` column, for `unique()`. */
  function Years(rs: seq<ViewingRecord>): (ys: seq<int>)
    ensures |ys| == |rs| && forall i :: 0 <= i < |rs| ==> ys[i] == rs[i].year
  {
    seq(|rs|, i requires 0 <= i < |rs| => rs[i].year)
  }

  /** `max([y for y in years if y <= current])`, None where `max` of the empty list raises. */
  function LatestUpTo(years: seq<int>, current: int): (r: Option<int>)
    ensures r.None? <==> forall y :: y in years ==> y > current
    ensures r.Some? ==> r.value in years && r.value <= current
    ensures r.Some? ==> forall y :: y in years && y <= current ==> y <= r.value
  {
    if |years| == 0 then None
    else
      var rest := LatestUpTo(years[1..], current);
      assert forall y :: y in years <==> y == years[0] || y in years[1..];
      assert years[0] in years;
      if years[0] > current then rest
      else if rest.Some? && rest.value >= years[0] then rest
      else Some(years[0])
  }

  /** The year `main` summarises: 2025 when present, else the latest year up to the current one. */
  function TargetYear(years: seq<int>, current: int): (r: Option<int>)
    ensures 2025 in years ==> r == Some(2025)
    ensures 2025 !in years ==> (r.None? <==> forall y :: y in years ==> y > current)
    ensures 2025 !in years && r.Some? ==>
              r.value in years && r.value <= current && forall y :: y in years && y <= current ==> y <= r.value
  {
    if 2025 in years then Some(2025) else LatestUpTo(years, current)
  }

  /**
   * `main` after loading, with the current year as a parameter: an error where
   * `max` finds no year up to the current one, otherwise `calculate_stats` for the
   * target year, which then always has rows.
   */
  method Summarise(records: seq<ViewingRecord>, currentYear: int) returns (r: Result<WrappedReport>)
    ensures r.Err? <==> TargetYear(Years(records), currentYear).None?
    ensures TargetYear(Years(records), currentYear).Some? ==>
              |Selected(records, TargetYear(Years(records), currentYear))| > 0
    ensures r.Ok? ==> Summarises(Selected(records, TargetYear(Years(records), currentYear)),
                                 TargetYear(Years(records), currentYear), r.value.stats)
    ensures r.Ok? ==> r.value.personality == Personality(r.value.stats)
    ensures r.Ok? ==> r.value.funFacts == FunFacts(r.value.stats)
  {
    var target := TargetYear(Years(records), currentYear);
    if target.None? {
      return Err("max() arg is an empty sequence");
    }
    var i :| 0 <= i < |records| && Years(records)[i] == target.value;
    SelectedNonEmpty(records, target, i);
    r := CalculateStats(records, target);
  }
}
