/**
 * The string operations the scripts take from Python: `str.strip()`, `str.split(sep)`,
 * the `in` substring test, `int()` on digit strings and `<` on strings.
 */
module Text {
  import opened Common

  /** Python's `str.isspace()`: the characters `strip()` removes and `\s` matches in a str pattern. */
  predicate IsSpace(c: char) {
    || c == ' '
    || '\t' <= c <= '\r'
    || '\U{1C}' <= c <= '\U{1F}'
    || c == '\U{85}' || c == '\U{A0}' || c == '\U{1680}'
    || '\U{2000}' <= c <= '\U{200A}'
    || c == '\U{2028}' || c == '\U{2029}' || c == '\U{202F}' || c == '\U{205F}' || c == '\U{3000}'
  }

  predicate AllSpaces(s: string) { forall i :: 0 <= i < |s| ==> IsSpace(s[i]) }

  /** An ASCII decimal digit. */
  predicate IsDigit(c: char) { '0' <= c <= '9' }

  /** Length of the longest prefix of `s` whose characters all satisfy `p`. */
  function LeadingEnd(s: string, p: char -> bool): (k: nat)
    ensures k <= |s|
    ensures forall i :: 0 <= i < k ==> p(s[i])
    ensures k == |s| || !p(s[k])
  {
    if |s| == 0 || !p(s[0]) then 0 else 1 + LeadingEnd(s[1..], p)
  }

  /** Start of the longest suffix of `s` whose characters all satisfy `p`. */
  function TrailingStart(s: string, p: char -> bool): (k: nat)
    ensures k <= |s|
    ensures forall i :: k <= i < |s| ==> p(s[i])
    ensures k == 0 || !p(s[k - 1])
  {
    if |s| == 0 || !p(s[|s| - 1]) then |s| else TrailingStart(s[..|s| - 1], p)
  }

  /** The two contracts above pin their results down: any boundary with the same properties is the same. */
  lemma {:induction false} LeadingEndUnique(s: string, p: char -> bool, k: nat)
    requires k <= |s|
    requires forall i :: 0 <= i < k ==> p(s[i])
    requires k == |s| || !p(s[k])
    ensures LeadingEnd(s, p) == k
  {
  }

  lemma {:induction false} TrailingStartUnique(s: string, p: char -> bool, k: nat)
    requires k <= |s|
    requires forall i :: k <= i < |s| ==> p(s[i])
    requires k == 0 || !p(s[k - 1])
    ensures TrailingStart(s, p) == k
  {
  }

  /** A run of `p` followed by a character outside `p` is exactly the leading run. */
  lemma {:induction false} LeadingRun(pre: string, post: string, p: char -> bool)
    requires forall i :: 0 <= i < |pre| ==> p(pre[i])
    requires |post| == 0 || !p(post[0])
    ensures LeadingEnd(pre + post, p) == |pre|
    ensures (pre + post)[..|pre|] == pre && (pre + post)[|pre|..] == post
  {
    var s := pre + post;
    assert forall i :: 0 <= i < |pre| ==> s[i] == pre[i];
    if |post| > 0 {
      assert s[|pre|] == post[0];
    }
    LeadingEndUnique(s, p, |pre|);
  }

  /** `s` cut where its leading run of `p` ends. */
  lemma {:induction false} LeadingSplit(s: string, p: char -> bool) returns (pre: string, post: string)
    ensures s == pre + post && |pre| == LeadingEnd(s, p)
    ensures forall i :: 0 <= i < |pre| ==> p(pre[i])
    ensures |post| == 0 || !p(post[0])
  {
    var k := LeadingEnd(s, p);
    pre, post := s[..k], s[k..];
    assert s == pre + post;
    assert forall i :: 0 <= i < |pre| ==> pre[i] == s[i];
    if |post| > 0 {
      assert post[0] == s[k];
    }
  }

  /** A character outside `p` followed by a run of `p` is exactly the trailing run. */
  lemma {:induction false} TrailingRun(pre: string, post: string, p: char -> bool)
    requires forall i :: 0 <= i < |post| ==> p(post[i])
    requires |pre| == 0 || !p(pre[|pre| - 1])
    ensures TrailingStart(pre + post, p) == |pre|
    ensures (pre + post)[..|pre|] == pre && (pre + post)[|pre|..] == post
  {
    var s := pre + post;
    assert forall i :: |pre| <= i < |s| ==> s[i] == post[i - |pre|];
    if |pre| > 0 {
      assert s[|pre| - 1] == pre[|pre| - 1];
    }
    TrailingStartUnique(s, p, |pre|);
  }

  /** `s` cut where its trailing run of `p` starts. */
  lemma {:induction false} TrailingSplit(s: string, p: char -> bool) returns (pre: string, post: string)
    ensures s == pre + post && |pre| == TrailingStart(s, p)
    ensures forall i :: 0 <= i < |post| ==> p(post[i])
    ensures |pre| == 0 || !p(pre[|pre| - 1])
  {
    var k := TrailingStart(s, p);
    pre, post := s[..k], s[k..];
    assert s == pre + post;
    forall i | 0 <= i < |post|
      ensures p(post[i])
    {
      assert post[i] == s[k + i];
    }
    if |pre| > 0 {
      assert pre[|pre| - 1] == s[k - 1];
    }
  }

  function TrimLeft(s: string): string { s[LeadingEnd(s, IsSpace)..] }

  function TrimRight(s: string): string { s[..TrailingStart(s, IsSpace)] }

  /** Python's `str.strip()`: `s` with leading and trailing whitespace removed. */
  function Strip(s: string): (r: string)
    ensures |r| == 0 || (!IsSpace(r[0]) && !IsSpace(r[|r| - 1]))
    ensures exists i, j :: StrippedSlice(s, i, j) && r == s[i..j]
  {
    var i := LeadingEnd(s, IsSpace);
    var t := s[i..];
    var j := TrailingStart(t, IsSpace);
    assert StrippedSlice(s, i, i + j);
    t[..j]
  }

  /** `s[i..j]` is `s` with nothing but whitespace cut from either end. */
  ghost predicate StrippedSlice(s: string, i: int, j: int) {
    && 0 <= i <= j <= |s|
    && (forall k :: 0 <= k < i ==> IsSpace(s[k]))
    && (forall k :: j <= k < |s| ==> IsSpace(s[k]))
  }

  /** Whitespace padding around a core that neither begins nor ends with whitespace is exactly what `Strip` removes. */
  lemma {:induction false} StripPadded(pre: string, core: string, post: string)
    requires forall k :: 0 <= k < |pre| ==> IsSpace(pre[k])
    requires forall k :: 0 <= k < |post| ==> IsSpace(post[k])
    requires |core| == 0 || (!IsSpace(core[0]) && !IsSpace(core[|core| - 1]))
    ensures Strip(pre + core + post) == core
  {
    var s := pre + core + post;
    if |core| == 0 {
      assert s == pre + post;
      LeadingEndUnique(s, IsSpace, |s|);
      assert s[|s|..] == [];
      TrailingStartUnique([], IsSpace, 0);
    } else {
      LeadingEndUnique(s, IsSpace, |pre|);
      var t := s[|pre|..];
      assert t == core + post;
      TrailingStartUnique(t, IsSpace, |core|);
      assert t[..|core|] == core;
    }
  }

  /** Stripping twice is stripping once. */
  lemma {:induction false} StripIdempotent(s: string)
    ensures Strip(Strip(s)) == Strip(s)
  {
    var r := Strip(s);
    StripPadded([], r, []);
    assert [] + r + [] == r;
  }

  /** Stripping never introduces a character. */
  lemma {:induction false} StripSubset(s: string, c: char)
    requires c in Strip(s)
    ensures c in s
  {
    var i, j :| StrippedSlice(s, i, j) && Strip(s) == s[i..j];
    var k :| 0 <= k < |Strip(s)| && Strip(s)[k] == c;
    assert s[i + k] == c;
  }

  /** A character `s` does not hold is not in `Strip(s)` either. */
  lemma {:induction false} StripKeepsOut(s: string, c: char)
    requires c !in s
    ensures c !in Strip(s)
  {
    var r := Strip(s);
    var i, j :| StrippedSlice(s, i, j) && r == s[i..j];
    forall k | 0 <= k < |r|
      ensures r[k] != c
    {
      assert r[k] == s[i + k];
    }
  }

  // ---------------------------------------------------------------------------
  // str.split(sep) on a one-character separator, and its inverse `sep.join`

  /** Index of the first `c` in `s`, or |s| when there is none. */
  function IndexOf(s: string, c: char): (k: nat)
    ensures k <= |s|
    ensures forall i :: 0 <= i < k ==> s[i] != c
    ensures k < |s| ==> s[k] == c
  {
    LeadingEnd(s, x => x != c)
  }

  /** `sep.join(parts)` for a one-character separator. */
  function Join(parts: seq<string>, sep: char): string {
    if |parts| == 0 then []
    else if |parts| == 1 then parts[0]
    else parts[0] + [sep] + Join(parts[1..], sep)
  }

  /** Python's `s.split(sep)`: always at least one part, none holding `sep`, and joining them back gives `s`. */
  function Split(s: string, sep: char): (parts: seq<string>)
    ensures |parts| >= 1
    ensures forall i :: 0 <= i < |parts| ==> sep !in parts[i]
    ensures Join(parts, sep) == s
    ensures parts[0] == s[..IndexOf(s, sep)]
    decreases |s|
  {
    var k := IndexOf(s, sep);
    if k == |s| then
      assert s[..k] == s;
      [s]
    else
      var rest := Split(s[k + 1..], sep);
      assert s == s[..k] + [sep] + s[k + 1..];
      [s[..k]] + rest
  }

  /** Splitting a join of separator-free parts gives the parts back. */
  lemma {:induction false} SplitJoin(parts: seq<string>, sep: char)
    requires |parts| >= 1
    requires forall i :: 0 <= i < |parts| ==> sep !in parts[i]
    ensures Split(Join(parts, sep), sep) == parts
    decreases |parts|
  {
    var s := Join(parts, sep);
    if |parts| == 1 {
      IndexOfAbsent(s, sep);
    } else {
      var p := parts[0];
      var rest := Join(parts[1..], sep);
      assert s == p + [sep] + rest;
      assert sep !in p;
      assert forall i :: 0 <= i < |p| ==> s[i] == p[i];
      IndexOfAt(s, sep, |p|);
      assert s[|p| + 1..] == rest;
      assert s[..|p|] == p;
      SplitJoin(parts[1..], sep);
      assert Split(s, sep) == [p] + Split(rest, sep);
      assert parts == [p] + parts[1..];
    }
  }

  lemma {:induction false} IndexOfAbsent(s: string, c: char)
    requires c !in s
    ensures IndexOf(s, c) == |s|
  {
    LeadingEndUnique(s, x => x != c, |s|);
  }

  lemma {:induction false} IndexOfAt(s: string, c: char, k: nat)
    requires k < |s| && s[k] == c
    requires forall i :: 0 <= i < k ==> s[i] != c
    ensures IndexOf(s, c) == k
  {
    LeadingEndUnique(s, x => x != c, k);
  }

  // ---------------------------------------------------------------------------
  // Substring tests

  predicate StartsWith(s: string, t: string) { |t| <= |s| && s[..|t|] == t }

  predicate EndsWith(s: string, t: string) { |t| <= |s| && s[|s| - |t|..] == t }

  /** `t` occurs in `s` starting at index `i`. */
  predicate OccursAt(s: string, t: string, i: int) {
    0 <= i <= |s| - |t| && s[i..i + |t|] == t
  }

  /** Python's `t in s` for strings. */
  predicate Contains(s: string, t: string)
    decreases |s|
  {
    StartsWith(s, t) || (|s| > 0 && Contains(s[1..], t))
  }

  /** The left-to-right scan of `Contains` finds `t` exactly when it occurs somewhere in `s`. */
  lemma {:induction false} ContainsIff(s: string, t: string)
    ensures Contains(s, t) <==> exists i :: OccursAt(s, t, i)
    decreases |s|
  {
    if StartsWith(s, t) {
      assert OccursAt(s, t, 0);
    } else if |s| > 0 {
      ContainsIff(s[1..], t);
      if i :| OccursAt(s[1..], t, i) {
        assert s[1..][i..i + |t|] == s[i + 1..i + 1 + |t|];
        assert OccursAt(s, t, i + 1);
      }
      if i :| OccursAt(s, t, i) {
        assert i != 0;
        assert s[1..][i - 1..i - 1 + |t|] == s[i..i + |t|];
        assert OccursAt(s[1..], t, i - 1);
      }
    }
  }

  /** Every character of an occurring `t` is a character of `s`. */
  lemma {:induction false} ContainsChars(s: string, t: string, j: int)
    requires Contains(s, t) && 0 <= j < |t|
    ensures t[j] in s
  {
    ContainsIff(s, t);
    var i :| OccursAt(s, t, i);
    assert s[i..i + |t|][j] == s[i + j];
  }

  /** A string lacking one of `t`'s characters does not contain `t`. */
  lemma {:induction false} NotContains(s: string, t: string, c: char)
    requires c in t && c !in s
    ensures !Contains(s, t)
  {
    if Contains(s, t) {
      var j :| 0 <= j < |t| && t[j] == c;
      ContainsChars(s, t, j);
    }
  }

  // ---------------------------------------------------------------------------
  // Decimal digits: Python's int() on a digit string, and str() of a natural number

  predicate AllDigits(s: string) { forall i :: 0 <= i < |s| ==> IsDigit(s[i]) }

  function DigitValue(c: char): nat requires IsDigit(c) { c as int - '0' as int }

  function DigitChar(d: nat): (c: char)
    requires d < 10
    ensures IsDigit(c) && DigitValue(c) == d
  {
    ('0' as int + d) as char
  }

  /** The number a digit string denotes, leading zeros allowed. */
  function DigitsValue(s: string): nat
    requires AllDigits(s)
  {
    if |s| == 0 then 0 else 10 * DigitsValue(s[..|s| - 1]) + DigitValue(s[|s| - 1])
  }

  /** Python's `int(part)`, restricted to ASCII digit strings; None where int() would raise. */
  function ParseNat(s: string): (r: Option<nat>)
    ensures r.Some? <==> |s| > 0 && AllDigits(s)
  {
    if |s| > 0 && AllDigits(s) then Some(DigitsValue(s)) else None
  }

  /** Python's `str(n)` for a natural number: shortest decimal text. */
  function NatToDigits(n: nat): (s: string)
    ensures |s| > 0 && AllDigits(s)
    ensures DigitsValue(s) == n
    ensures n >= 10 ==> s[0] != '0'
  {
    if n < 10 then
      [DigitChar(n)]
    else
      var p := NatToDigits(n / 10);
      var s := p + [DigitChar(n % 10)];
      assert s[..|s| - 1] == p;
      s
  }

  /** Leading zeros do not change the value. */
  lemma {:induction false} LeadingZero(t: string)
    requires AllDigits(t)
    ensures AllDigits("0" + t) && DigitsValue("0" + t) == DigitsValue(t)
    decreases |t|
  {
    var s := "0" + t;
    if |t| > 0 {
      assert s[..|s| - 1] == "0" + t[..|t| - 1];
      LeadingZero(t[..|t| - 1]);
    }
  }

  // ---------------------------------------------------------------------------
  // Python's `<` on strings: lexicographic by code point, a proper prefix first

  predicate Less(a: string, b: string)
    decreases |a|
  {
    if |a| == 0 then |b| > 0
    else if |b| == 0 then false
    else if a[0] != b[0] then a[0] < b[0]
    else Less(a[1..], b[1..])
  }

  lemma {:induction false} LessIrreflexive(a: string)
    ensures !Less(a, a)
    decreases |a|
  {
    if |a| > 0 {
      LessIrreflexive(a[1..]);
    }
  }

  lemma {:induction false} LessTransitive(a: string, b: string, c: string)
    requires Less(a, b) && Less(b, c)
    ensures Less(a, c)
    decreases |a|
  {
    if |a| > 0 && a[0] == b[0] && b[0] == c[0] {
      LessTransitive(a[1..], b[1..], c[1..]);
    }
  }

  lemma {:induction false} LessTotal(a: string, b: string)
    ensures a == b || Less(a, b) || Less(b, a)
    decreases |a|
  {
    if |a| > 0 && |b| > 0 && a[0] == b[0] {
      LessTotal(a[1..], b[1..]);
      if a[1..] == b[1..] {
        assert a == [a[0]] + a[1..];
        assert b == [b[0]] + b[1..];
      }
    }
  }
}
