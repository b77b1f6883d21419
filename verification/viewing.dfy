/**
 * One viewing row after timestamp parsing, shared by both scripts, and the
 * hour-of-day buckets both of them use.
 */
module Viewing {
  import opened Common

  /** Calendar month, January = 1. */
  type Month = m: int | 1 <= m <= 12 witness 1

  /** Day of the week, Monday = 0, as the canonical weekday order lists it. */
  type Weekday = d: int | 0 <= d <= 6 witness 0

  /** Hour of the start time, 0..23. */
  type Hour = h: int | 0 <= h <= 23 witness 0

  /**
   * A row of the viewing export with its start time already read: `day` is the
   * calendar date as a day number (consecutive dates differ by 1), `year`, `month`,
   * `weekday` and `hour` are its fields, and the text columns stay as they are,
   * None where the cell is empty.
   */
  datatype ViewingRecord = ViewingRecord(
    title: Option<string>,
    year: int,
    day: int,
    month: Month,
    weekday: Weekday,
    hour: Hour,
    duration: Option<string>,
    device: Option<string>,
    supplemental: Option<string>)

  /** Canonical key order of the monthly breakdown. */
  const MonthNames: seq<string> :=
    ["January", "February", "March", "April", "May", "June",
     "July", "August", "September", "October", "November", "December"]

  /** Canonical key order of the weekday breakdown. */
  const DayNames: seq<string> :=
    ["Monday", "Tuesday", "Wednesday", "Thursday", "Friday", "Saturday", "Sunday"]

  /** The four parts of the day, in the order the time breakdown lists them. */
  datatype TimeBucket = Morning | Afternoon | Evening | NightOwl

  const Buckets: seq<TimeBucket> := [Morning, Afternoon, Evening, NightOwl]

  function BucketLabel(b: TimeBucket): string {
    match b
    case Morning => "Morning (6am-12pm)"
    case Afternoon => "Afternoon (12pm-6pm)"
    case Evening => "Evening (6pm-10pm)"
    case NightOwl => "Night Owl (10pm-6am)"
  }

  /** Position of a bucket in `Buckets`. */
  function BucketIndex(b: TimeBucket): (i: nat)
    ensures i < |Buckets| && Buckets[i] == b
  {
    match b
    case Morning => 0
    case Afternoon => 1
    case Evening => 2
    case NightOwl => 3
  }

  /** Index keys of the breakdowns: 0-based month, weekday and bucket of each record. */
  function MonthKeys(rs: seq<ViewingRecord>): (ks: seq<nat>)
    ensures |ks| == |rs| && forall i :: 0 <= i < |rs| ==> ks[i] == rs[i].month - 1 && ks[i] < 12
  {
    seq(|rs|, i requires 0 <= i < |rs| => rs[i].month - 1)
  }

  function WeekdayKeys(rs: seq<ViewingRecord>): (ks: seq<nat>)
    ensures |ks| == |rs| && forall i :: 0 <= i < |rs| ==> ks[i] == rs[i].weekday && ks[i] < 7
  {
    seq(|rs|, i requires 0 <= i < |rs| => rs[i].weekday)
  }

  function HourKeys(rs: seq<ViewingRecord>): (ks: seq<nat>)
    ensures |ks| == |rs| && forall i :: 0 <= i < |rs| ==> ks[i] == rs[i].hour && ks[i] < 24
  {
    seq(|rs|, i requires 0 <= i < |rs| => rs[i].hour)
  }

  /** The record's date as a day number, for `unique()` of the date column. */
  function Days(rs: seq<ViewingRecord>): (ds: seq<int>)
    ensures |ds| == |rs| && forall i :: 0 <= i < |rs| ==> ds[i] == rs[i].day
  {
    seq(|rs|, i requires 0 <= i < |rs| => rs[i].day)
  }

  // ---------------------------------------------------------------------------
  // get_time_category of process_netflix_data.py

  /** The part of the day an hour falls in; each hour gets exactly one, by these ranges. */
  function TimeCategory(hour: Hour): (b: TimeBucket)
    ensures b == Morning <==> 6 <= hour < 12
    ensures b == Afternoon <==> 12 <= hour < 18
    ensures b == Evening <==> 18 <= hour < 22
    ensures b == NightOwl <==> hour < 6 || 22 <= hour
  {
    if 6 <= hour < 12 then Morning
    else if 12 <= hour < 18 then Afternoon
    else if 18 <= hour < 22 then Evening
    else NightOwl
  }

  /** A time bucket per row, the TimeCategory column, as bucket indexes. */
  function BucketKeys(ks: seq<ViewingRecord>): (b: seq<nat>)
    ensures |b| == |ks| && forall i :: 0 <= i < |ks| ==> b[i] == BucketIndex(TimeCategory(ks[i].hour)) && b[i] < 4
  {
    seq(|ks|, i requires 0 <= i < |ks| => BucketIndex(TimeCategory(ks[i].hour)))
  }

  /** Breakdowns over the fixed key lists: months, weekdays, parts of the day. */
  type MonthTally = s: seq<nat> | |s| == 12 witness [0, 0, 0, 0, 0, 0, 0, 0, 0, 0, 0, 0]
  type DayTally = s: seq<nat> | |s| == 7 witness [0, 0, 0, 0, 0, 0, 0]
  type BucketTally = s: seq<nat> | |s| == 4 witness [0, 0, 0, 0]
}
