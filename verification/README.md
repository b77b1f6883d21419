# netflix-wrapped in Dafny

A model of the statistics core of netflix-wrapped, a batch transform that turns a
Netflix viewing-history export into "year in review" figures. The repository
writes the transform twice:

- `scripts/process_netflix_data.py` ("Recap", module `Recap`, with its parsing in
  `RecapParsing`). It keeps the 2025 rows that last at least a minute and are not
  supplemental. It splits titles into show, season and episode, and counts binges
  as four or more episodes of one show on one day. It collects every matching
  personality and takes the first. The fun-fact grid is capped at four.
- `scripts/process_data.py` ("Wrapped", module `Wrapped`). It cuts show names at
  the first colon and filters on an optional year. It estimates 45 minutes per
  row and counts the four time windows with separate filters. Binges are three
  or more rows of one show on one day, movies included. The personality is an
  if/elif chain, followed by up to five comparison facts and the choice of the
  year to summarise.

Rows arrive already parsed (`Viewing.ViewingRecord`):
- the start time becomes year, day number, month, weekday (Monday = 0) and hour, so "the next day" is `+1`;
- title, duration, device and supplemental type stay as text, `None` where the cell is empty.

Both scripts share these modules:
- `Tally`: group counts, zero-filled breakdowns, the first maximum, distinct counts and the top-n list.
- `Streaks`: active dates and the longest streak loop.
- `Binges`: (date, show) groups, how many reach a threshold, and the biggest group as `idxmax` picks it.
- `Text`: `strip`, `split`, `in`, and `int` on digit strings.

Each script's run ends in one method:
- `Recap.ProcessRecap` and `Wrapped.CalculateStats` return either the script's error or the statistics.
- A ghost predicate (`Summarises`) states what every field of the statistics is.
- `Wrapped.Summarise` adds `main`'s choice of year, with the current year as a parameter.

Python semantics kept explicit:
- Rounding is half to even (`Common.RoundHalfEven`). Python's `round(x, 1)` of `n * 0.75` sees an exact value, so the Wrapped hours are kept in tenths (`Wrapped.HoursTenths`).
- The Recap hour total is a numpy float, and numpy rounds `seconds / 360` tenths half to even: 180 seconds gives 0.0 hours, 181 seconds gives 0.1 (`Recap.ClockThreshold`).
- Ratio tests are cross-multiplied with the `or 1` fallback (`Recap.MostlyNight`, `Recap.MostlyWeekend`), and lemmas relate them to the real-valued ratios.
- `round(ratio * 100) > 20` is `200 * night > 41 * total`, because 20.5 rounds to 20 (`Recap.MoonThreshold`).
- `facts[:4]` clamps like a Python slice (`Recap.TakeAtMost`).

Where the code and the repository's own description differ, the model follows the code:
- A show name can come out empty: the title " : Season 1" gives show "" and season 1.
- A kept row with no title makes `re.match` raise, and no kept row at all makes the script raise (the grouping of episodes by date and show fails on the empty frame).
  `Recap.ProcessRecap` returns an error in both cases.

## Model

| member | source | states |
|---|---|---|
| `Text.Strip` | scripts/process_data.py:61 | the result is the input with only whitespace cut from either end, and neither of its ends is whitespace |
| `Text.StripIdempotent` | scripts/process_data.py:61 | stripping twice is stripping once |
| `Text.Split` | scripts/process_data.py:60 | `split(':')` has at least one part, no part holds the separator, the parts joined back give the input, and the first part is the text before the first separator |
| `Text.SplitJoin` | scripts/process_data.py:60 | splitting a join of separator-free parts gives the parts back |
| `Text.ContainsIff` | scripts/process_netflix_data.py:291-296 | the `in` test holds exactly when the word occurs at some position |
| `RecapParsing.ParseDuration` | scripts/process_netflix_data.py:14-26 | 0 for a missing or empty duration, for a part count other than 2 or 3, and when some part is not an integer |
| `RecapParsing.DurationThreeParts` | scripts/process_netflix_data.py:19-21 | "h:m:s" of digit strings gives h·3600 + m·60 + s |
| `RecapParsing.DurationTwoParts` | scripts/process_netflix_data.py:22-23 | "m:s" of digit strings gives m·60 + s |
| `RecapParsing.DurationClockRoundTrip` | scripts/process_netflix_data.py:14-26 | reading back the HH:MM:SS text of any number of seconds gives that number |
| `RecapParsing.SeasonMatch` | scripts/process_netflix_data.py:31-35 | the first (shortest non-empty group 1) position where ':' plus the season header matches, and None exactly when it matches nowhere |
| `RecapParsing.ExtractShowInfo` | scripts/process_netflix_data.py:28-60 | a title is an episode exactly when it has a season; a non-episode has no episode number |
| `RecapParsing.EpisodeIffSeasonPattern` | scripts/process_netflix_data.py:31-42 | a title is an episode exactly when the season pattern occurs; the show is then the stripped text before its first occurrence, the season its number, and the episode the number of the `(Episode M)` ending after the season digits, if any |
| `RecapParsing.CutAtMarkers` | scripts/process_netflix_data.py:47 | the title is cut exactly where the first `_hook` or `_primary` starts |
| `RecapParsing.CutWithoutUnderscore` | scripts/process_netflix_data.py:47 | a title without '_' is not cut |
| `RecapParsing.ColonFreeTitle` | scripts/process_netflix_data.py:45 | the ": Season" and ": Episode" tests fail on a title without ':' |
| `RecapParsing.ColonFreeTitleIsMovie` | scripts/process_netflix_data.py:44-53 | a title without ':' is a movie named by its stripped text cut at the first marker |
| `RecapParsing.SeasonAfterColonIff` | scripts/process_netflix_data.py:31 | the text after a ':' passes the season test exactly when it is whitespace, "Season", whitespace, a maximal digit run and a rest, and the season is then that run's number |
| `RecapParsing.EpisodeSuffixIff` | scripts/process_netflix_data.py:31 | the text after the season digits yields an episode number exactly when it ends in "(Episode", whitespace, digits and ")", and the number is those digits |
| `RecapParsing.FallbackKeepsTextBeforeColon` | scripts/process_netflix_data.py:55-60 | "show:rest" with a colon-free show that mentions ": Season" or ": Episode" but fails the pattern is a non-episode named by the stripped show |
| `RecapParsing.EpisodeTitleRoundTrip` | scripts/process_netflix_data.py:28-42 | "show: Season N: name (Episode M)" with a colon-free show gives (stripped show, N, M, episode) |
| `Viewing.TimeCategory` | scripts/process_netflix_data.py:62-71 | every hour gets exactly one bucket: Morning [6,12), Afternoon [12,18), Evening [18,22), Night Owl otherwise |
| `Tally.Breakdown` | scripts/process_netflix_data.py:229-247 | the breakdown has exactly the n canonical keys, each with its count (0 when absent), and the counts add up to the number of rows |
| `Tally.FirstMax` | scripts/process_netflix_data.py:277-285 | the index holds the maximum count and every earlier index holds less: the first canonical key with the maximum |
| `Tally.FirstMaxUnique` | scripts/process_netflix_data.py:277-285 | only one index has both properties |
| `Tally.UniqueCount` | scripts/process_netflix_data.py:215 | `nunique()` is the number of distinct values |
| `Tally.TopCounts` | scripts/process_netflix_data.py:218-227 | min(n, distinct values) entries of distinct values with their true counts, in non-increasing count order, and no value left out counts more than the last entry |
| `Tally.MostFrequentFirst` | scripts/process_netflix_data.py:309-310 | the number-one entry counts at least as much as any value |
| `Streaks.ActiveDates` | scripts/process_netflix_data.py:250 | `sorted(unique())`: strictly ascending, holding exactly the days that occur |
| `Streaks.AscendingUnique` | scripts/process_netflix_data.py:250 | an ascending list is fixed by its values |
| `Streaks.ActiveDaysCount` | scripts/process_netflix_data.py:251 | `active_days` is the number of distinct days |
| `Streaks.LongestStreak` | scripts/process_netflix_data.py:253-261 | 1 for no dates; otherwise the length of some run of consecutive days, no run is longer, and it lies between 1 and the number of dates |
| `Streaks.EndsAreExtremes` | scripts/process_netflix_data.py:329-330 | the first and last active dates are the earliest and latest days |
| `Binges.BingeCount` | scripts/process_netflix_data.py:263-265 | the number of (date, show) groups with at least the threshold many rows |
| `Binges.Biggest` | scripts/process_netflix_data.py:267-274 | None exactly when there are no rows; otherwise a group of maximum size, the first in (date, show) order among equally big ones |
| `Binges.BiggestUnique` | scripts/process_netflix_data.py:268-271 | exactly one group is biggest-and-first, so `idxmax` is determined |
| `Binges.BingeExists` | scripts/process_data.py:141-147 | some group reaches the threshold exactly when the biggest group does |
| `Recap.KeepIff` | scripts/process_netflix_data.py:184-194 | a row is kept exactly when it is from 2025, lasts at least 60 seconds and is main content |
| `Recap.Kept` | scripts/process_netflix_data.py:184-194 | every kept row passes the filters, and each row occurs as often as before if it passes and never otherwise |
| `Recap.EpisodeCount` | scripts/process_netflix_data.py:299-300 | the number of rows the Is_Episode mask selects; so at most the number of rows, 0 exactly when every row is a movie, all rows exactly when every row is an episode |
| `Recap.EpisodeKeys` | scripts/process_netflix_data.py:264 | one (date, show) key per episode row, so as many keys as `EpisodeCount`; how often each key occurs is `Recap.EpisodeKeysCount` |
| `Recap.EpisodeKeysCount` | scripts/process_netflix_data.py:264 | each (date, show) key occurs among the group keys exactly as often as there are episode rows with that key: the group sizes `size()` counts |
| `Recap.EpisodeKeysMembers` | scripts/process_netflix_data.py:264 | the keys grouped for binges are exactly the (date, show) keys of the episode rows |
| `Recap.SimplifyDevice` | scripts/process_netflix_data.py:290-296 | "Smart TV" exactly when the name contains "TV"; otherwise "iPhone" exactly when it contains that, then "Android"; any other name is kept |
| `Recap.TopDevice` | scripts/process_netflix_data.py:288-296 | "Unknown" when no row names a device; otherwise the simplified name of a device no other device outnumbers |
| `Recap.SmartTvContainsTv` | scripts/process_netflix_data.py:291 | every name containing "Smart TV" contains "TV", so the second test never decides |
| `Recap.SimplifyDeviceIdempotent` | scripts/process_netflix_data.py:288-296 | simplifying a device name twice is simplifying it once |
| `Recap.Holds` | scripts/process_netflix_data.py:92-118 | the condition of each of the seven rules, at the script's thresholds |
| `Recap.MostlyNightRatio` | scripts/process_netflix_data.py:78-80 | the cross-multiplied night test holds exactly when night / (total or 1) > 0.5 |
| `Recap.MostlyWeekendRatio` | scripts/process_netflix_data.py:82-84 | the cross-multiplied weekend test holds exactly when weekend / (total or 1) > 0.4 |
| `Recap.Personality` | scripts/process_netflix_data.py:73-125 | "The Casual Viewer" exactly when no rule holds; otherwise a rule that holds with no earlier rule holding |
| `Recap.MatchingFirst` | scripts/process_netflix_data.py:121-125 | the head of the collected list is the first rule in order that holds |
| `Recap.FactHolds` | scripts/process_netflix_data.py:130-150 | the condition of each fact: rounded hours above 0, some show, rounded night percentage above 20, some active day |
| `Recap.ClockThreshold` | scripts/process_netflix_data.py:130-133 | the hour total rounded to a tenth, half to even, is positive exactly above 180 seconds |
| `Recap.MoonThreshold` | scripts/process_netflix_data.py:141-145 | the night percentage rounded half to even exceeds 20 exactly when 200·night > 41·total |
| `Recap.FunFacts` | scripts/process_netflix_data.py:127-153 | a fact appears exactly when its condition holds, in the order clock, grid, moon, calendar, at most four |
| `Recap.TakeAtMost` | scripts/process_netflix_data.py:153 | `[:n]` keeps min(n, length) leading entries |
| `Recap.ProcessRecap` | scripts/process_netflix_data.py:184-343 | an error exactly when no row is kept or a kept row has no title; otherwise statistics meeting `Summarises` with the personality and facts derived from them |
| `Recap.Summarise` | scripts/process_netflix_data.py:209-331 | every field as `Summarises` states it: counts, a top-ten list whatever the order among tied shows, breakdowns and first peaks, active days, streak, binges, movies plus episodes, a most named device, first and last day |
| `Wrapped.ShowName` | scripts/process_data.py:53-61 | "Unknown" for a missing title, else the stripped text before the first ':'; never contains ':' |
| `Wrapped.IsEpisode` | scripts/process_data.py:48 | missing for a missing title, true exactly when the title holds ':' |
| `Wrapped.ShowNameIdempotent` | scripts/process_data.py:53-61 | taking the show name of a show name changes nothing |
| `Wrapped.MovieNameIsTitle` | scripts/process_data.py:60-61 | a title that is not an episode is named by its whole stripped text |
| `Wrapped.EpisodeNameIsShow` | scripts/process_data.py:60-61 | "show:rest" with a colon-free show is an episode named by the stripped show |
| `Wrapped.InYear` | scripts/process_data.py:67-68 | every remaining row has the year, and each row of that year occurs as often as before |
| `Wrapped.Selected` | scripts/process_data.py:67-68 | no year or year 0 keeps every row; any other year keeps the rows of that year, each as often as before |
| `Wrapped.SelectedNonEmpty` | scripts/process_data.py:67-71 | filtering on a year some row has leaves a row |
| `Wrapped.MaxYear` | scripts/process_data.py:78 | the largest year of the rows |
| `Wrapped.HoursTenths` | scripts/process_data.py:81 | 0.75·n hours rounded to a tenth: within half a tenth, and an exact tie goes to the even tenth |
| `Wrapped.HoursThresholds` | scripts/process_data.py:188-220 | hours > 500 exactly from 667 rows, > 200 from 267 rows, > 0 from 1 row |
| `Wrapped.Present` | scripts/process_data.py:121-122 | the keys with a positive count, ascending, each with its count, and no such key missing |
| `Wrapped.Hourly` | scripts/process_data.py:121-122 | the hours that occur, ascending, each with its count, and every occurring hour listed |
| `Wrapped.WindowCount` | scripts/process_data.py:124-128 | each window filter counts exactly the rows `get_time_category` puts in that bucket |
| `Wrapped.TimeWindows` | scripts/process_data.py:124-135 | the four window counts are the bucket breakdown and add up to the number of rows |
| `Wrapped.NightWord` | scripts/process_data.py:194 | of the four labels only the Night Owl one contains "Night" |
| `Wrapped.MorningWord` | scripts/process_data.py:203 | of the four labels only the Morning one contains "Morning" |
| `Wrapped.Applies` | scripts/process_data.py:188-205 | the condition of each branch of the chain, with hours in tenths |
| `Wrapped.Personality` | scripts/process_data.py:175-207 | "The Casual Viewer" exactly when no branch holds; otherwise a branch that holds with no earlier branch holding |
| `Wrapped.ManyRowsChampion` | scripts/process_data.py:188-190 | 667 rows or more give "The Streaming Champion" whatever the binge count and the rest |
| `Wrapped.FactApplies` | scripts/process_data.py:220-234 | the condition of each comparison fact, with hours in tenths |
| `Wrapped.FunFacts` | scripts/process_data.py:210-236 | a fact appears exactly when its condition holds, in append order, at most five, and a positive hour total puts the two time facts first |
| `Wrapped.CalculateStats` | scripts/process_data.py:64-172 | the error object exactly when the year filter leaves no row; otherwise statistics meeting `Summarises` with the personality and facts derived from them |
| `Wrapped.StatsOf` | scripts/process_data.py:73-164 | every field as `Summarises` states it: year, counts, hours, a top-ten list whatever the order among tied shows, breakdowns and first peaks, hourly counts, time windows, binges over all rows, streak and active days |
| `Wrapped.LatestUpTo` | scripts/process_data.py:278 | the largest year not after the current one, None exactly when there is none |
| `Wrapped.TargetYear` | scripts/process_data.py:274-278 | 2025 when some row has it, else the latest year up to the current one |
| `Wrapped.Summarise` | scripts/process_data.py:273-281 | an error exactly when no year qualifies; the target year always leaves rows, and the statistics are those of that year |

## Left out

- Loading, CSV parsing, column renaming, folder discovery, JSON writing and printing are I/O. The model starts from the parsed rows.
- `pd.to_datetime` is a library call. Rows whose timestamp fails to parse are dropped before the core, so they are not represented. Year, day number, month, weekday and hour are given fields.
- Float quantities are left out: estimated hours and days in the Recap script, minutes per show, and the Tokyo and book numbers. The Recap script's hours enter only through "> 0", which holds from 181 seconds on. The Wrapped script's hours are kept exactly, in tenths.
- The Wrapped script's `estimated_days` (`round(hours / 24, 1)`, line 82) is not a field: no statistic or decision reads it.
- Rounded ratios are taken on exact rationals. The float division and product the scripts compute can differ in the last bit, which could move a value lying exactly on a half; for any realistic total the two thresholds the model decides on (180 seconds, a 20.5% night share) are not affected.
- Formatted text is left out: personality descriptions, fact wording and the percentage shown. Personalities and facts are modelled as kinds.
- The `Clip N:` and `Teaser…:` clean-up in `extract_show_info` is left out, because Python regex semantics are too loose to state here. Only the `_hook` and `_primary` cut is modelled.
- Regex `.` is taken to match any character, and `$` only at the very end. Titles are single-line.
- RecapParsing.ParseDuration: only ASCII digit strings count as integers. `int()`'s signs, surrounding whitespace, underscores and non-ASCII digits are treated as a failed part (0).
- RecapParsing.ExtractShowInfo: `\d` in the season pattern is taken as '0'-'9'. Python's `\d` and `int()` also accept other Unicode decimal digits, so a title such as "X: Season ٣" is an episode of season 3 in the script and a non-episode in the model.
- Tally.TopCounts: the function lists tied values in order of first appearance, but its contract (`Tally.IsTopList`) leaves the order among equal counts open, because pandas' descending sort does not fix it. The statistics are stated through that predicate, and the top device through `Tally.MostCommon`, so neither depends on how ties are broken.
- The `datetime.now()` read in `main` is the parameter `currentYear` of `Wrapped.Summarise`.
- The Wrapped script's `IsEpisode` and `WeekOfYear` columns are computed but not used by the statistics. `IsEpisode` is modelled, `WeekOfYear` is not.
- The constant `'year': 2025` of the Recap statistics is not a field.
