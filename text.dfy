/**
 * The Python string operations the scraper relies on, written out for
 * `string` (a sequence of Unicode scalar values, as a Python `str` is a
 * sequence of code points): `str.isdigit` and `\d` (ASCII digits),
 * `str.isspace`, `str.strip`, `str.replace`, `str.split(sep)`, `sep.join`,
 * `int(text)`, `str(n)` and the slice `xs[:n]`.
 */
module Text {
  import opened Wrappers

  // ---------------------------------------------------------------------
  // Character classes
  // ---------------------------------------------------------------------

  /** An ASCII decimal digit (what `\d` and `str.isdigit` accept here). */
  predicate IsDigit(c: char) {
    '0' <= c <= '9'
  }

  predicate IsDigits(s: string) {
    forall i :: 0 <= i < |s| ==> IsDigit(s[i])
  }

  /** `s.isdigit()`: at least one character, and every character a digit. */
  predicate IsDigitString(s: string) {
    |s| > 0 && IsDigits(s)
  }

  /**
   * The characters Python's `str.isspace` accepts; the regex class `\s` on
   * `str` patterns matches exactly the same set.
   */
  predicate IsSpace(c: char) {
    || c == ' '
    || '\t' <= c <= '\r'
    || '\U{1c}' <= c <= '\U{1f}'
    || c == '\U{85}' || c == '\U{a0}' || c == '\U{1680}'
    || '\U{2000}' <= c <= '\U{200a}'
    || c == '\U{2028}' || c == '\U{2029}' || c == '\U{202f}' || c == '\U{205f}'
    || c == '\U{3000}'
  }

  /** ASCII lower-casing, the only case folding the model performs. */
  function LowerAscii(c: char): char {
    if 'A' <= c <= 'Z' then (c as int + 32) as char else c
  }

  // ---------------------------------------------------------------------
  // Prefixes and substrings
  // ---------------------------------------------------------------------

  predicate StartsWith(s: string, prefix: string) {
    |prefix| <= |s| && s[..|prefix|] == prefix
  }

  /** A prefix test under ASCII `re.IGNORECASE`. */
  predicate StartsWithIgnoreCase(s: string, prefix: string) {
    |prefix| <= |s| && forall i :: 0 <= i < |prefix| ==> LowerAscii(s[i]) == LowerAscii(prefix[i])
  }

  lemma StartsWithIgnoreCaseSelf(s: string, t: string)
    ensures StartsWithIgnoreCase(s + t, s)
  {
    assert forall i :: 0 <= i < |s| ==> (s + t)[i] == s[i];
  }

  /** `sub` occurs in `s` at position `i`. */
  predicate OccursAt(s: string, sub: string, i: int)
    requires 0 <= i <= |s|
  {
    StartsWith(s[i..], sub)
  }

  /** `sub in s`. */
  predicate Contains(s: string, sub: string) {
    exists i :: 0 <= i <= |s| && OccursAt(s, sub, i)
  }

  // ---------------------------------------------------------------------
  // str.strip()
  // ---------------------------------------------------------------------

  /** The character at `i` is whitespace. */
  predicate SpaceAt(s: string, i: int)
    requires 0 <= i < |s|
  {
    IsSpace(s[i])
  }

  /** The first position from `i` on that is not whitespace, or `|s|`. */
  function LeftEnd(s: string, i: nat): (k: nat)
    requires i <= |s|
    ensures i <= k <= |s|
    ensures k < |s| ==> !IsSpace(s[k])
    ensures forall j :: i <= j < k ==> SpaceAt(s, j)
    decreases |s| - i
  {
    if i < |s| && IsSpace(s[i]) then LeftEnd(s, i + 1) else i
  }

  /** The end of the text before `j` once trailing whitespace is dropped. */
  function RightEnd(s: string, j: nat): (e: nat)
    requires j <= |s|
    ensures e <= j
    ensures e > 0 ==> !IsSpace(s[e - 1])
    ensures forall i :: e <= i < j ==> SpaceAt(s, i)
    decreases j
  {
    if j > 0 && IsSpace(s[j - 1]) then RightEnd(s, j - 1) else j
  }

  /** `s.lstrip()`. */
  function TrimLeft(s: string): (r: string)
    ensures |r| <= |s| && r == s[|s| - |r|..]
    ensures r == [] || !IsSpace(r[0])
    ensures forall i :: 0 <= i < |s| - |r| ==> SpaceAt(s, i)
  {
    s[LeftEnd(s, 0)..]
  }

  /** `s.rstrip()`. */
  function TrimRight(s: string): (r: string)
    ensures |r| <= |s| && r == s[..|r|]
    ensures r == [] || !IsSpace(r[|r| - 1])
    ensures forall i :: |r| <= i < |s| ==> SpaceAt(s, i)
  {
    s[..RightEnd(s, |s|)]
  }

  /** Leading whitespace up to `k`, then a non-whitespace character or the end: the left trim starts at `k`. */
  lemma TrimLeftAt(s: string, k: nat)
    requires k <= |s| && (k < |s| ==> !IsSpace(s[k]))
    requires forall i :: 0 <= i < k ==> SpaceAt(s, i)
    ensures TrimLeft(s) == s[k..]
  {
    var e := LeftEnd(s, 0);
    assert e < k ==> SpaceAt(s, e);
    assert k < e ==> SpaceAt(s, k);
  }

  /** Trailing whitespace from `k` on, after a non-whitespace character or the start: the right trim ends at `k`. */
  lemma TrimRightAt(s: string, k: nat)
    requires k <= |s| && (k > 0 ==> !IsSpace(s[k - 1]))
    requires forall i :: k <= i < |s| ==> SpaceAt(s, i)
    ensures TrimRight(s) == s[..k]
  {
    var e := RightEnd(s, |s|);
    assert e < k ==> SpaceAt(s, k - 1);
    assert k < e ==> SpaceAt(s, e - 1);
  }

  /** A leading whitespace character is dropped by the left trim. */
  lemma TrimLeftSkip(s: string)
    requires s != [] && IsSpace(s[0])
    ensures TrimLeft(s) == TrimLeft(s[1..])
  {
    var t := s[1..];
    var k := |t| - |TrimLeft(t)|;
    forall i | 0 <= i < k + 1 ensures SpaceAt(s, i) {
      if i > 0 {
        assert SpaceAt(t, i - 1);
      }
    }
    assert k + 1 < |s| ==> s[k + 1] == t[k];
    TrimLeftAt(s, k + 1);
    assert s[k + 1..] == t[k..];
  }

  /** Text that does not start with whitespace is kept by the left trim. */
  lemma TrimLeftStop(s: string)
    requires s == [] || !IsSpace(s[0])
    ensures TrimLeft(s) == s
  {
    TrimLeftAt(s, 0);
  }

  /** A trailing whitespace character is dropped by the right trim. */
  lemma TrimRightSkip(s: string)
    requires s != [] && IsSpace(s[|s| - 1])
    ensures TrimRight(s) == TrimRight(s[..|s| - 1])
  {
    var t := s[..|s| - 1];
    var k := |TrimRight(t)|;
    forall i | k <= i < |s| ensures SpaceAt(s, i) {
      if i < |t| {
        assert SpaceAt(t, i);
      }
    }
    assert k > 0 ==> s[k - 1] == t[k - 1];
    TrimRightAt(s, k);
  }

  /** Text that does not end with whitespace is kept by the right trim. */
  lemma TrimRightStop(s: string)
    requires s == [] || !IsSpace(s[|s| - 1])
    ensures TrimRight(s) == s
  {
    TrimRightAt(s, |s|);
  }

  /** `s.strip()`: whitespace removed from both ends, and only from the ends. */
  function Strip(s: string): (r: string)
    ensures r == [] || (!IsSpace(r[0]) && !IsSpace(r[|r| - 1]))
    ensures |r| <= |s|
  {
    TrimRight(TrimLeft(s))
  }

  /** No whitespace at either end, as `strip()` leaves text. */
  predicate IsStripped(s: string) {
    s == [] || (!IsSpace(s[0]) && !IsSpace(s[|s| - 1]))
  }

  /** The stripped text is the slice of `s` between its leading and trailing whitespace. */
  lemma StripIsSlice(s: string)
    ensures var k := |s| - |TrimLeft(s)|; k + |Strip(s)| <= |s| && Strip(s) == s[k..k + |Strip(s)|]
  {
  }

  /** Text with no whitespace at either end is left as it is. */
  lemma StripUnchanged(s: string)
    requires s == [] || (!IsSpace(s[0]) && !IsSpace(s[|s| - 1]))
    ensures Strip(s) == s
  {
  }

  lemma StripIdempotent(s: string)
    ensures Strip(Strip(s)) == Strip(s)
  {
    StripUnchanged(Strip(s));
  }

  // ---------------------------------------------------------------------
  // str.replace(old, new)
  // ---------------------------------------------------------------------

  /** `s.replace(pat, rep)`: leftmost occurrences, not overlapping, left to right. */
  function ReplaceAll(s: string, pat: string, rep: string): string
    requires |pat| > 0
    decreases |s|
  {
    if |s| < |pat| then s
    else if s[..|pat|] == pat then rep + ReplaceAll(s[|pat|..], pat, rep)
    else [s[0]] + ReplaceAll(s[1..], pat, rep)
  }

  /** Replacing a pattern that does not occur changes nothing. */
  lemma {:induction false} ReplaceAbsent(s: string, pat: string, rep: string)
    requires |pat| > 0 && !Contains(s, pat)
    ensures ReplaceAll(s, pat, rep) == s
    decreases |s|
  {
    if |s| >= |pat| {
      assert s[0..] == s;
      assert !OccursAt(s, pat, 0);
      assert !Contains(s[1..], pat) by {
        forall i | 0 <= i <= |s| - 1
          ensures !OccursAt(s[1..], pat, i)
        {
          assert !OccursAt(s, pat, i + 1);
          assert s[1..][i..] == s[i + 1..];
        }
      }
      ReplaceAbsent(s[1..], pat, rep);
    }
  }

  /** Text without the pattern's first character is passed over unchanged. */
  lemma {:induction false} ReplaceAllPrefix(a: string, b: string, pat: string, rep: string)
    requires |pat| > 0 && pat[0] !in a
    ensures ReplaceAll(a + b, pat, rep) == a + ReplaceAll(b, pat, rep)
  {
    if a == [] {
      assert a + b == b;
    } else {
      var s := a + b;
      assert s[0] == a[0] && s[1..] == a[1..] + b;
      if |s| >= |pat| {
        assert s[..|pat|][0] == a[0];
      }
      ReplaceAllPrefix(a[1..], b, pat, rep);
    }
  }

  /** Text that does not start with the pattern keeps its first character. */
  lemma ReplaceAllMiss(s: string, pat: string, rep: string)
    requires |pat| > 0 && s != [] && !StartsWith(s, pat)
    ensures ReplaceAll(s, pat, rep) == [s[0]] + ReplaceAll(s[1..], pat, rep)
  {
  }

  /** An occurrence at the start is replaced and the scan goes on after it. */
  lemma ReplaceAllHit(b: string, pat: string, rep: string)
    requires |pat| > 0
    ensures ReplaceAll(pat + b, pat, rep) == rep + ReplaceAll(b, pat, rep)
  {
    assert (pat + b)[..|pat|] == pat && (pat + b)[|pat|..] == b;
  }

  // ---------------------------------------------------------------------
  // str.split(sep) and sep.join(parts)
  // ---------------------------------------------------------------------

  /** `s.split(sep)` for a one-character separator: always at least one field. */
  function Split(s: string, sep: char): (r: seq<string>)
    ensures |r| >= 1
  {
    if s == [] then [""]
    else
      var rest := Split(s[1..], sep);
      if s[0] == sep then [""] + rest else [[s[0]] + rest[0]] + rest[1..]
  }

  /** Text without the separator is a single field. */
  lemma {:induction false} SplitNone(a: string, sep: char)
    requires sep !in a
    ensures Split(a, sep) == [a]
  {
    if a != [] {
      SplitNone(a[1..], sep);
      assert [a[0]] + a[1..] == a;
    }
  }

  /** A separator-free first field is split off at the first separator. */
  lemma {:induction false} SplitFirst(a: string, b: string, sep: char)
    requires sep !in a
    ensures Split(a + [sep] + b, sep) == [a] + Split(b, sep)
  {
    if a == [] {
      assert a + [sep] + b == [sep] + b;
      assert ([sep] + b)[1..] == b;
    } else {
      var s := a + [sep] + b;
      assert s[1..] == a[1..] + [sep] + b;
      SplitFirst(a[1..], b, sep);
      assert [a[0]] + a[1..] == a;
    }
  }

  /** Joining the fields of a split with the separator gives back the text. */
  lemma {:induction false} JoinSplit(s: string, sep: char)
    ensures Join(Split(s, sep), [sep]) == s
  {
    if s != [] {
      JoinSplit(s[1..], sep);
      var rest := Split(s[1..], sep);
      if s[0] == sep {
        JoinFront("", rest, [sep]);
      } else {
        JoinGrowFirst(s[0], rest, [sep]);
      }
      assert [s[0]] + s[1..] == s;
    }
  }

  /** A part put in front of parts is joined to them with one separator. */
  lemma JoinFront(p: string, rest: seq<string>, sep: string)
    requires |rest| >= 1
    ensures Join([p] + rest, sep) == p + sep + Join(rest, sep)
  {
    assert ([p] + rest)[1..] == rest;
  }

  /** A character put in front of the first part lands in front of the join. */
  lemma JoinGrowFirst(c: char, rest: seq<string>, sep: string)
    requires |rest| >= 1
    ensures Join([[c] + rest[0]] + rest[1..], sep) == [c] + Join(rest, sep)
  {
    var parts := [[c] + rest[0]] + rest[1..];
    if |rest| > 1 {
      assert parts[1..] == rest[1..];
    }
  }

  function Join(parts: seq<string>, sep: string): string {
    if parts == [] then ""
    else if |parts| == 1 then parts[0]
    else parts[0] + sep + Join(parts[1..], sep)
  }

  /** Splitting a join on a separator no part contains gives back the parts. */
  lemma {:induction false} SplitJoin(parts: seq<string>, sep: char)
    requires |parts| >= 1
    requires forall i :: 0 <= i < |parts| ==> sep !in parts[i]
    ensures Split(Join(parts, [sep]), sep) == parts
  {
    if |parts| == 1 {
      SplitNone(parts[0], sep);
    } else {
      SplitJoin(parts[1..], sep);
      SplitFirst(parts[0], Join(parts[1..], [sep]), sep);
      assert [parts[0]] + parts[1..] == parts;
    }
  }

  // ---------------------------------------------------------------------
  // str(n) and int(text)
  // ---------------------------------------------------------------------

  function DigitChar(d: nat): (c: char)
    requires d < 10
    ensures IsDigit(c)
  {
    ('0' as int + d) as char
  }

  function DigitValue(c: char): (d: nat)
    requires IsDigit(c)
    ensures d < 10
  {
    c as int - '0' as int
  }

  /** `str(n)` for a non-negative integer: no leading zeros. */
  function NatToString(n: nat): (r: string)
    ensures IsDigitString(r)
    decreases n
  {
    if n < 10 then [DigitChar(n)] else NatToString(n / 10) + [DigitChar(n % 10)]
  }

  /** `str(n)` for any integer. */
  function IntToString(n: int): string {
    if n < 0 then "-" + NatToString(-n) else NatToString(n)
  }

  /** The value of a string of decimal digits (leading zeros allowed). */
  function DecimalValue(d: string): nat
    requires IsDigits(d)
  {
    if d == [] then 0 else DecimalValue(d[..|d| - 1]) * 10 + DigitValue(d[|d| - 1])
  }

  /** The value of a two-digit string. */
  lemma DecimalValuePair(a: char, b: char)
    requires IsDigit(a) && IsDigit(b)
    ensures IsDigits([a, b]) && DecimalValue([a, b]) == DigitValue(a) * 10 + DigitValue(b)
  {
    var d := [a, b];
    assert d[..1] == [a];
    assert [a][..0] == [];
    assert DecimalValue([a]) == DigitValue(a);
    assert DecimalValue(d) == DecimalValue(d[..1]) * 10 + DigitValue(d[1]);
  }

  /** `str` and the decimal reading are inverse on the naturals. */
  lemma {:induction false} DecimalValueOfNatToString(n: nat)
    ensures DecimalValue(NatToString(n)) == n
    decreases n
  {
    if n >= 10 {
      DecimalValueOfNatToString(n / 10);
      var s := NatToString(n);
      assert s[..|s| - 1] == NatToString(n / 10);
    }
  }

  /**
   * The digits of an `int()` literal: digits at both ends, and underscores
   * only singly between digits (Python allows `1_000`).
   */
  predicate IntBody(b: string) {
    && |b| > 0 && IsDigit(b[0]) && IsDigit(b[|b| - 1])
    && (forall i :: 0 <= i < |b| ==> IsDigit(b[i]) || b[i] == '_')
    && !Contains(b, "__")
  }

  function DropUnderscores(s: string): (r: string)
    ensures (forall i :: 0 <= i < |s| ==> IsDigit(s[i]) || s[i] == '_') ==> IsDigits(r)
    ensures IsDigits(s) ==> r == s
  {
    if s == [] then ""
    else (if s[0] == '_' then "" else [s[0]]) + DropUnderscores(s[1..])
  }

  function BodyValue(b: string): nat
    requires IntBody(b)
  {
    DecimalValue(DropUnderscores(b))
  }

  /**
   * `int(text)`: surrounding whitespace ignored, an optional sign, then
   * digits; `None` where Python raises `ValueError`.
   */
  function ParseInt(s: string): Option<int> {
    var t := Strip(s);
    if |t| > 0 && (t[0] == '+' || t[0] == '-') then
      if IntBody(t[1..]) then
        var v: int := BodyValue(t[1..]);
        Some(if t[0] == '-' then -v else v)
      else None
    else if IntBody(t) then Some(BodyValue(t))
    else None
  }

  lemma DigitsAreIntBody(d: string)
    requires IsDigitString(d)
    ensures IntBody(d)
  {
    forall i | 0 <= i <= |d| ensures !OccursAt(d, "__", i) {
      if i < |d| {
        assert d[i..][0] == d[i];
      }
    }
  }

  lemma ParseIntOfStripped(d: string)
    requires IsDigitString(d) && Strip(d) == d && IntBody(d)
    ensures ParseInt(d) == Some(BodyValue(d))
  {
    assert d[0] != '+' && d[0] != '-' by { assert IsDigit(d[0]); }
  }

  /** Any non-empty run of digits is read as its decimal value. */
  lemma ParseIntOfDigits(d: string)
    requires IsDigitString(d)
    ensures ParseInt(d) == Some(DecimalValue(d))
  {
    StripUnchanged(d);
    DigitsAreIntBody(d);
    ParseIntOfStripped(d);
  }

  // ---------------------------------------------------------------------
  // xs[:n]
  // ---------------------------------------------------------------------

  /** Python's slice `s[:n]`; a negative `n` counts from the end. */
  function Take<T>(s: seq<T>, n: int): (r: seq<T>)
    ensures |r| <= |s| && r == s[..|r|]
    ensures n >= 0 ==> |r| == (if n < |s| then n else |s|)
    ensures n < 0 ==> |r| == (if |s| + n < 0 then 0 else |s| + n)
  {
    if n >= 0 then (if n <= |s| then s[..n] else s)
    else if |s| + n >= 0 then s[..|s| + n]
    else []
  }

  /** Once a list holds `n >= 0` items, appending more does not change its first `n`. */
  lemma TakeAppend<T>(s: seq<T>, t: seq<T>, n: int)
    requires 0 <= n <= |s|
    ensures Take(s + t, n) == Take(s, n)
  {
    assert (s + t)[..n] == s[..n];
  }
}
