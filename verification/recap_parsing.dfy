/**
 * The per-row parsers of scripts/process_netflix_data.py: `parse_duration` for the
 * Duration column and `extract_show_info` for the Title column.
 */
module RecapParsing {
  import opened Common
  import opened Text

  // ---------------------------------------------------------------------------
  // parse_duration

  /** Duration text to seconds: `H:M:S` or `M:S`; 0 for a missing or empty cell, another part count, or a part int() rejects. */
  function ParseDuration(d: Option<string>): (secs: nat)
    ensures d.None? || d == Some("") ==> secs == 0
    ensures d.Some? && |Split(d.value, ':')| != 2 && |Split(d.value, ':')| != 3 ==> secs == 0
    ensures d.Some? && (exists i :: 0 <= i < |Split(d.value, ':')| && ParseNat(Split(d.value, ':')[i]).None?) ==> secs == 0
  {
    match d
    case None => 0
    case Some(s) =>
      if s == "" then 0
      else
        var parts := Split(s, ':');
        if |parts| == 3 then
          match (ParseNat(parts[0]), ParseNat(parts[1]), ParseNat(parts[2]))
          case (Some(h), Some(m), Some(x)) => h * 3600 + m * 60 + x
          case _ => 0
        else if |parts| == 2 then
          match (ParseNat(parts[0]), ParseNat(parts[1]))
          case (Some(m), Some(x)) => m * 60 + x
          case _ => 0
        else 0
  }

  /** Three digit groups read as hours, minutes and seconds. */
  lemma {:induction false} DurationThreeParts(h: string, m: string, s: string)
    requires |h| > 0 && AllDigits(h) && |m| > 0 && AllDigits(m) && |s| > 0 && AllDigits(s)
    ensures ParseDuration(Some(h + ":" + m + ":" + s)) == DigitsValue(h) * 3600 + DigitsValue(m) * 60 + DigitsValue(s)
  {
    var parts := [h, m, s];
    NoColonInDigits(h);
    NoColonInDigits(m);
    NoColonInDigits(s);
    var text := h + ":" + m + ":" + s;
    assert Join(parts[2..], ':') == s;
    assert Join(parts[1..], ':') == m + ":" + s;
    assert Join(parts, ':') == text;
    SplitJoin(parts, ':');
    assert Split(text, ':') == parts;
    assert text != "";
    assert ParseNat(h) == Some(DigitsValue(h));
    assert ParseNat(m) == Some(DigitsValue(m));
    assert ParseNat(s) == Some(DigitsValue(s));
  }

  /** Two digit groups read as minutes and seconds. */
  lemma {:induction false} DurationTwoParts(m: string, s: string)
    requires |m| > 0 && AllDigits(m) && |s| > 0 && AllDigits(s)
    ensures ParseDuration(Some(m + ":" + s)) == DigitsValue(m) * 60 + DigitsValue(s)
  {
    var parts := [m, s];
    NoColonInDigits(m);
    NoColonInDigits(s);
    var text := m + ":" + s;
    assert Join(parts[1..], ':') == s;
    assert Join(parts, ':') == text;
    SplitJoin(parts, ':');
    assert Split(text, ':') == parts;
    assert text != "";
    assert ParseNat(m) == Some(DigitsValue(m));
    assert ParseNat(s) == Some(DigitsValue(s));
  }

  lemma {:induction false} NoColonInDigits(s: string)
    requires AllDigits(s)
    ensures ':' !in s
  {
    assert forall i :: 0 <= i < |s| ==> s[i] != ':';
  }

  /** Two-digit zero-padded text, as the export writes minutes and seconds. */
  function Pad2(n: nat): (s: string)
    ensures |s| > 0 && AllDigits(s) && DigitsValue(s) == n
  {
    var t := NatToDigits(n);
    if n < 10 then LeadingZero(t); "0" + t else t
  }

  /** The export's `HH:MM:SS` text for a number of seconds. */
  function ClockText(secs: nat): string {
    Pad2(secs / 3600) + ":" + Pad2(secs / 60 % 60) + ":" + Pad2(secs % 60)
  }

  /** Reading back the export's clock text gives the seconds it was written from. */
  lemma {:induction false} DurationClockRoundTrip(secs: nat)
    ensures ParseDuration(Some(ClockText(secs))) == secs
  {
    var h, m, x := secs / 3600, secs / 60 % 60, secs % 60;
    DurationThreeParts(Pad2(h), Pad2(m), Pad2(x));
    assert secs / 60 / 60 == h;
    assert secs == (secs / 60) * 60 + x;
    assert secs / 60 == h * 60 + m;
  }

  // ---------------------------------------------------------------------------
  // extract_show_info

  /** What `extract_show_info` returns for a title. */
  datatype ShowInfo = ShowInfo(show: string, season: Option<nat>, episode: Option<nat>, isEpisode: bool)

  /**
   * The text right after a ':' matched against `\s*Season\s*(\d+)`: the season number and the rest of
   * the title after the greedy digit run, or None.
   */
  function SeasonAfterColon(u: string): (r: Option<(nat, string)>)
  {
    var v := TrimLeft(u);
    if !StartsWith(v, "Season") then None
    else
      var w := TrimLeft(v[6..]);
      var e := LeadingEnd(w, IsDigit);
      if e == 0 then None else Some((DigitsValue(w[..e]), w[e..]))
  }

  /** The season pattern matches with group 1 being `title[..i]`: a non-empty prefix followed by ':' and the season header. */
  predicate SeasonColonAt(title: string, i: int) {
    1 <= i < |title| && title[i] == ':' && SeasonAfterColon(title[i + 1..]).Some?
  }

  /** `u` is `\s*Season\s*` followed by the maximal digit run `ds` and then `rest`. */
  ghost predicate SeasonHeader(u: string, w1: string, w2: string, ds: string, rest: string) {
    && u == w1 + ("Season" + (w2 + (ds + rest)))
    && AllSpaces(w1) && AllSpaces(w2)
    && |ds| > 0 && AllDigits(ds)
    && (|rest| == 0 || !IsDigit(rest[0]))
  }

  /** Any header of that shape is read as its digits and the text after them. */
  lemma {:induction false} SeasonHeaderRead(w1: string, w2: string, ds: string, rest: string)
    requires AllSpaces(w1) && AllSpaces(w2) && |ds| > 0 && AllDigits(ds)
    requires |rest| == 0 || !IsDigit(rest[0])
    ensures SeasonAfterColon(w1 + ("Season" + (w2 + (ds + rest)))) == Some((DigitsValue(ds), rest))
  {
    var v := "Season" + (w2 + (ds + rest));
    assert v[0] == 'S';
    LeadingRun(w1, v, IsSpace);
    var x := w2 + (ds + rest);
    assert v[..6] == "Season" && v[6..] == x;
    assert (ds + rest)[0] == ds[0];
    LeadingRun(w2, ds + rest, IsSpace);
    LeadingRun(ds, rest, IsDigit);
  }

  /**
   * The text after a ':' passes the season test exactly when it has the shape
   * `\s*Season\s*(\d+)`, and then the number and the rest come from that shape.
   */
  lemma {:induction false} SeasonAfterColonIff(u: string)
    ensures SeasonAfterColon(u).Some? <==> exists w1, w2, ds, rest :: SeasonHeader(u, w1, w2, ds, rest)
    ensures forall w1, w2, ds, rest :: SeasonHeader(u, w1, w2, ds, rest) ==> SeasonAfterColon(u) == Some((DigitsValue(ds), rest))
  {
    forall w1, w2, ds, rest | SeasonHeader(u, w1, w2, ds, rest)
      ensures SeasonAfterColon(u) == Some((DigitsValue(ds), rest))
    {
      SeasonHeaderRead(w1, w2, ds, rest);
    }
    if SeasonAfterColon(u).Some? {
      var w1, w2, ds, rest := SeasonHeaderOf(u);
    }
  }

  /** The pieces of a header that passes the season test. */
  lemma {:induction false} SeasonHeaderOf(u: string) returns (w1: string, w2: string, ds: string, rest: string)
    requires SeasonAfterColon(u).Some?
    ensures SeasonHeader(u, w1, w2, ds, rest)
  {
    var v;
    w1, v := LeadingSplit(u, IsSpace);
    assert v == TrimLeft(u);
    var x := v[6..];
    assert v == "Season" + x by {
      assert v[..6] == "Season";
      assert v == v[..6] + x;
    }
    var w;
    w2, w := LeadingSplit(x, IsSpace);
    assert w == TrimLeft(x);
    ds, rest := LeadingSplit(w, IsDigit);
  }

  /** The optional `\(Episode\s*(\d+)\)` anchored at the end of what follows the season digits. */
  function EpisodeSuffix(r: string): Option<nat> {
    if |r| == 0 || r[|r| - 1] != ')' then None
    else
      var b := r[..|r| - 1];
      var d := TrailingStart(b, IsDigit);
      if d == |b| then None
      else if EndsWith(b[..TrailingStart(b[..d], IsSpace)], "(Episode") then Some(DigitsValue(b[d..]))
      else None
  }

  /** `s` ends in "(Episode", whitespace `w`, the digits `ds` and ")". */
  ghost predicate EpisodeEnding(s: string, p: string, w: string, ds: string) {
    && s == p + "(Episode" + w + ds + ")"
    && AllSpaces(w) && |ds| > 0 && AllDigits(ds)
  }

  /** Any ending of that shape is read as its digits. */
  lemma {:induction false} EpisodeSuffixRead(p: string, w: string, ds: string)
    requires AllSpaces(w) && |ds| > 0 && AllDigits(ds)
    ensures EpisodeSuffix(p + "(Episode" + w + ds + ")") == Some(DigitsValue(ds))
  {
    var r := p + "(Episode" + w + ds + ")";
    var b := p + "(Episode" + w + ds;
    assert r[..|r| - 1] == b && r[|r| - 1] == ')';
    var c := p + "(Episode" + w;
    var h := p + "(Episode";
    assert h[|h| - 1] == 'e';
    assert c[|c| - 1] == if |w| > 0 then w[|w| - 1] else 'e';
    TrailingRun(c, ds, IsDigit);
    TrailingRun(h, w, IsSpace);
    assert h[|h| - 8..] == "(Episode";
  }

  /**
   * What follows the season digits carries an episode number exactly when it ends
   * in `(Episode`, optional whitespace, digits and `)`; the number is those digits.
   */
  lemma {:induction false} EpisodeSuffixIff(s: string)
    ensures EpisodeSuffix(s).Some? <==> exists p, w, ds :: EpisodeEnding(s, p, w, ds)
    ensures forall p, w, ds :: EpisodeEnding(s, p, w, ds) ==> EpisodeSuffix(s) == Some(DigitsValue(ds))
  {
    forall p, w, ds | EpisodeEnding(s, p, w, ds)
      ensures EpisodeSuffix(s) == Some(DigitsValue(ds))
    {
      EpisodeSuffixRead(p, w, ds);
    }
    if EpisodeSuffix(s).Some? {
      var p, w, ds := EpisodeEndingOf(s);
    }
  }

  /** The pieces of an ending that carries an episode number. */
  lemma {:induction false} EpisodeEndingOf(s: string) returns (p: string, w: string, ds: string)
    requires EpisodeSuffix(s).Some?
    ensures EpisodeEnding(s, p, w, ds)
  {
    var b := s[..|s| - 1];
    assert s == b + ")";
    var c;
    c, ds := TrailingSplit(b, IsDigit);
    var h;
    h, w := TrailingSplit(c, IsSpace);
    assert b[..|c|] == c && c[..|h|] == h;
    assert EndsWith(h, "(Episode");
    p := h[..|h| - 8];
    assert h == p + "(Episode" by {
      assert h == h[..|h| - 8] + h[|h| - 8..];
    }
  }

  /** A `_hook` or `_primary` marker starts at index `q` of `s`. */
  predicate MarkerAt(s: string, q: int) {
    0 <= q <= |s| && (StartsWith(s[q..], "_hook") || StartsWith(s[q..], "_primary"))
  }

  /** `re.sub(r'_hook.*|_primary.*', '', s)`: `s` cut where the first marker starts. */
  function CutAtMarkers(s: string): (r: string)
    ensures |r| <= |s| && r == s[..|r|]
    ensures forall q :: 0 <= q < |r| ==> !MarkerAt(s, q)
    ensures |r| < |s| ==> MarkerAt(s, |r|)
  {
    var ok: nat -> bool := q => MarkerAt(s, q);
    var found := FirstIndex(0, |s|, ok);
    var k := if found.Some? then found.value else |s|;
    assert forall q: nat :: q < k ==> !ok(q) && ok(q) == MarkerAt(s, q);
    assert s[..|s|] == s;
    s[..k]
  }

  lemma {:induction false} MarkerIsUnderscore(s: string, q: int)
    requires MarkerAt(s, q)
    ensures q < |s| && s[q] == '_'
  {
    assert s[q..][0] == s[q];
  }

  /** Markers start with '_', so a title without '_' is left whole. */
  lemma {:induction false} CutWithoutUnderscore(s: string)
    requires '_' !in s
    ensures CutAtMarkers(s) == s
  {
    var r := CutAtMarkers(s);
    if |r| < |s| {
      MarkerIsUnderscore(s, |r|);
      assert false;
    } else {
      assert r == s[..|s|];
      assert s[..|s|] == s;
    }
  }

  /** The ": Season" and ": Episode" tests cannot succeed on a title without ':'. */
  lemma {:induction false} ColonFreeTitle(title: string)
    ensures ':' !in title ==> !Contains(title, ": Season") && !Contains(title, ": Episode")
  {
    if Contains(title, ": Season") {
      ContainsChars(title, ": Season", 0);
    }
    if Contains(title, ": Episode") {
      ContainsChars(title, ": Episode", 0);
    }
  }

  /** Where the season pattern matches, if anywhere: the shortest non-empty group 1, as the lazy `(.+?)` finds it. */
  function SeasonMatch(title: string): (r: Option<nat>)
    ensures r.Some? ==> SeasonColonAt(title, r.value)
    ensures r.Some? ==> forall j :: 0 <= j < r.value ==> !SeasonColonAt(title, j)
    ensures r.None? ==> forall j :: !SeasonColonAt(title, j)
  {
    var ok: nat -> bool := i => SeasonColonAt(title, i);
    var r := FirstIndex(1, |title|, ok);
    var k := if r.Some? then r.value else |title|;
    assert forall j: nat :: 1 <= j < k ==> !ok(j) && ok(j) == SeasonColonAt(title, j);
    assert r.Some? ==> ok(r.value) && ok(r.value) == SeasonColonAt(title, r.value);
    r
  }

  /**
   * `extract_show_info`: the season pattern first; failing that, a title without ": Season" and
   * ": Episode" is a movie with its markers cut; anything else keeps the text before the first ':'.
   */
  function ExtractShowInfo(title: string): (info: ShowInfo)
    ensures info.isEpisode <==> info.season.Some?
    ensures !info.isEpisode ==> info.episode.None?
  {
    match SeasonMatch(title)
    case Some(i) =>
      var header := SeasonAfterColon(title[i + 1..]).value;
      ShowInfo(Strip(title[..i]), Some(header.0), EpisodeSuffix(header.1), true)
    case None =>
      if !Contains(title, ": Season") && !Contains(title, ": Episode") then
        ShowInfo(Strip(CutAtMarkers(title)), None, None, false)
      else
        ShowInfo(Strip(Split(title, ':')[0]), None, None, false)
  }

  /**
   * The title is an episode exactly when the season pattern matches; show and season then come from the
   * shortest group 1, and the episode number from the `(Episode M)` ending of what follows the season digits.
   */
  lemma {:induction false} EpisodeIffSeasonPattern(title: string)
    ensures ExtractShowInfo(title).isEpisode <==> exists i :: SeasonColonAt(title, i)
    ensures ExtractShowInfo(title).isEpisode ==>
      exists i :: && SeasonColonAt(title, i)
                  && (forall j :: 0 <= j < i ==> !SeasonColonAt(title, j))
                  && ExtractShowInfo(title).show == Strip(title[..i])
                  && ExtractShowInfo(title).season == Some(SeasonAfterColon(title[i + 1..]).value.0)
                  && ExtractShowInfo(title).episode == EpisodeSuffix(SeasonAfterColon(title[i + 1..]).value.1)
  {
    match SeasonMatch(title)
    case Some(i) =>
      EpisodeInfoAt(title, i);
      assert SeasonColonAt(title, i);
    case None =>
      NoMatchIsMovie(title);
  }

  /** Where the season pattern matches nowhere, the title is not an episode. */
  lemma {:induction false} NoMatchIsMovie(title: string)
    requires SeasonMatch(title).None?
    ensures !ExtractShowInfo(title).isEpisode
  {
  }

  /** Where the pattern first matches at `i`, the show is the stripped text before `i` and season and episode come from after it. */
  lemma {:induction false} EpisodeInfoAt(title: string, i: nat)
    requires SeasonMatch(title) == Some(i)
    ensures ExtractShowInfo(title)
            == ShowInfo(Strip(title[..i]), Some(SeasonAfterColon(title[i + 1..]).value.0),
                        EpisodeSuffix(SeasonAfterColon(title[i + 1..]).value.1), true)
  {
  }

  /** The first index where the season pattern matches is the one `SeasonMatch` reports. */
  lemma {:induction false} SeasonMatchAt(title: string, i: nat)
    requires SeasonColonAt(title, i)
    requires forall j :: 0 <= j < i ==> !SeasonColonAt(title, j)
    ensures SeasonMatch(title) == Some(i)
  {
  }

  /** A title without ':' is never an episode; its show is the whole title with markers cut and whitespace stripped. */
  lemma {:induction false} ColonFreeTitleIsMovie(title: string)
    requires ':' !in title
    ensures ExtractShowInfo(title) == ShowInfo(Strip(CutAtMarkers(title)), None, None, false)
  {
    ColonFreeTitle(title);
    forall i
      ensures !SeasonColonAt(title, i)
    {
      if 0 <= i < |title| {
        assert title[i] in title;
      }
    }
  }

  /**
   * A title "show:rest" with a colon-free show that mentions ": Season" or ": Episode"
   * but fails the season pattern is a non-episode named by the stripped show.
   */
  lemma {:induction false} FallbackKeepsTextBeforeColon(show: string, rest: string)
    requires ':' !in show
    requires forall i :: !SeasonColonAt(show + ":" + rest, i)
    requires Contains(show + ":" + rest, ": Season") || Contains(show + ":" + rest, ": Episode")
    ensures ExtractShowInfo(show + ":" + rest) == ShowInfo(Strip(show), None, None, false)
  {
    var title := show + ":" + rest;
    assert forall i :: 0 <= i < |show| ==> title[i] == show[i];
    IndexOfAt(title, ':', |show|);
    assert title[..|show|] == show;
  }

  /** The export's episode title format, "show: Season N: name (Episode M)". */
  function EpisodeTitle(show: string, season: nat, name: string, episode: nat): string {
    show + ": Season " + NatToDigits(season) + ": " + name + " " + "(Episode" + " " + NatToDigits(episode) + ")"
  }

  /** A colon-free non-empty show name followed by ':' and a season header: the pattern matches right after the name. */
  lemma {:induction false} ShowThenHeader(show: string, u: string)
    requires |show| > 0 && ':' !in show
    requires SeasonAfterColon(u).Some?
    ensures SeasonMatch(show + ":" + u) == Some(|show|)
    ensures (show + ":" + u)[..|show|] == show && (show + ":" + u)[|show| + 1..] == u
  {
    var title := show + ":" + u;
    assert title[..|show|] == show;
    assert title[|show| + 1..] == u;
    assert SeasonColonAt(title, |show|);
    forall j | 0 <= j < |show|
      ensures !SeasonColonAt(title, j)
    {
      assert title[j] == show[j];
    }
    SeasonMatchAt(title, |show|);
  }

  /** An episode title built from a colon-free show name parses back to that show, season and episode. */
  lemma {:induction false} EpisodeTitleRoundTrip(show: string, season: nat, name: string, episode: nat)
    requires |show| > 0 && ':' !in show
    ensures ExtractShowInfo(EpisodeTitle(show, season, name, episode)) == ShowInfo(Strip(show), Some(season), Some(episode), true)
  {
    var d := NatToDigits(season);
    var e := NatToDigits(episode);
    var rest := ": " + name + " " + "(Episode" + " " + e + ")";
    var u := " Season " + d + rest;
    var title := show + ":" + u;
    assert EpisodeTitle(show, season, name, episode) == title;
    TitleAfterShow(d, rest, name, e);
    ShowThenHeader(show, u);
    EpisodeInfoAt(title, |show|);
  }

  /** What follows "show:" in the export format reads as its season and episode numbers. */
  lemma {:induction false} TitleAfterShow(d: string, rest: string, name: string, e: string)
    requires |d| > 0 && AllDigits(d) && |e| > 0 && AllDigits(e)
    requires rest == ": " + name + " " + "(Episode" + " " + e + ")"
    ensures SeasonAfterColon(" Season " + d + rest) == Some((DigitsValue(d), rest))
    ensures EpisodeSuffix(rest) == Some(DigitsValue(e))
  {
    assert " Season " + d + rest == " " + ("Season" + (" " + (d + rest)));
    SeasonHeaderRead(" ", " ", d, rest);
    EpisodeSuffixRead(": " + name + " ", " ", e);
  }
}
