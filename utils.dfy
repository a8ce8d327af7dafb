/**
 * The helpers of `modules/utils.py`: clock durations, view counts, file
 * names, HTML to text, video ids and the search URL.
 */
module Utils {
  import opened Wrappers
  import opened Text
  import opened Scan
  import opened Consts

  // ---------------------------------------------------------------------
  // Durations
  // ---------------------------------------------------------------------

  /** `f"{n:02d}"` for a non-negative number. */
  function Pad2(n: nat): (r: string)
    ensures IsDigitString(r) && |r| >= 2
    ensures DecimalValue(r) == n
  {
    DecimalValueOfNatToString(n);
    if n < 10 then
      var r := "0" + NatToString(n);
      assert r[..|r| - 1] == "0";
      r
    else NatToString(n)
  }

  /** `format_duration`: `MM:SS`, or `HH:MM:SS` from one hour on; `"00:00"` when not positive. */
  function FormatDuration(seconds: int): (r: string)
    ensures seconds <= 0 ==> r == "00:00"
    ensures |r| >= 5 && IsDigit(r[0]) && IsDigit(r[|r| - 1])
  {
    if seconds <= 0 then "00:00"
    else
      var hours := seconds / 3600;
      var minutes := (seconds % 3600) / 60;
      var secs := seconds % 60;
      if hours > 0 then Pad2(hours) + ":" + Pad2(minutes) + ":" + Pad2(secs)
      else Pad2(minutes) + ":" + Pad2(secs)
  }

  /** The seconds a list of `:` fields stands for: `M:S` or `H:M:S`, each read by `int()`. */
  function FieldsSeconds(parts: seq<string>): (r: int)
    ensures |parts| != 2 && |parts| != 3 ==> r == 0
  {
    if |parts| == 2 then
      var m, sec := ParseInt(parts[0]), ParseInt(parts[1]);
      if m.Some? && sec.Some? then m.value * 60 + sec.value else 0
    else if |parts| == 3 then
      var h, m, sec := ParseInt(parts[0]), ParseInt(parts[1]), ParseInt(parts[2]);
      if h.Some? && m.Some? && sec.Some? then h.value * 3600 + m.value * 60 + sec.value else 0
    else 0
  }

  /**
   * `parse_duration`: the stripped text split at `:`; 0 for empty text,
   * another number of fields, or a field `int()` rejects.
   */
  function ParseDuration(s: string): (r: int)
    ensures s == [] ==> r == 0
    ensures var f := Split(Strip(s), ':'); |f| != 2 && |f| != 3 ==> r == 0
  {
    if s == [] then 0 else FieldsSeconds(Split(Strip(s), ':'))
  }

  /** Digit text with no whitespace at its ends goes through `strip()` unchanged. */
  lemma StripClockText(s: string, first: string, last: string)
    requires |first| > 0 && |last| > 0 && IsDigits(first) && IsDigits(last)
    requires |s| > 0 && s[0] == first[0] && s[|s| - 1] == last[|last| - 1]
    ensures Strip(s) == s
  {
    StripUnchanged(s);
  }

  /** Two digit fields `m:s` read as `m * 60 + s`. */
  lemma {:induction false} ParseDurationTwoFields(m: string, sec: string)
    requires IsDigitString(m) && IsDigitString(sec)
    ensures ParseDuration(m + ":" + sec) == DecimalValue(m) * 60 + DecimalValue(sec)
  {
    var s := m + ":" + sec;
    assert s[0] == m[0] && s[|s| - 1] == sec[|sec| - 1];
    StripClockText(s, m, sec);
    ClockFields2(m, sec);
    FieldsSecondsTwo(m, sec);
  }

  lemma FieldsSecondsTwo(m: string, sec: string)
    requires IsDigitString(m) && IsDigitString(sec)
    ensures FieldsSeconds([m, sec]) == DecimalValue(m) * 60 + DecimalValue(sec)
  {
    ParseIntOfDigits(m);
    ParseIntOfDigits(sec);
  }

  /** Three digit fields `h:m:s` read as `h * 3600 + m * 60 + s`. */
  lemma {:induction false} ParseDurationThreeFields(h: string, m: string, sec: string)
    requires IsDigitString(h) && IsDigitString(m) && IsDigitString(sec)
    ensures ParseDuration(h + ":" + m + ":" + sec)
         == DecimalValue(h) * 3600 + DecimalValue(m) * 60 + DecimalValue(sec)
  {
    var s := h + ":" + m + ":" + sec;
    assert s[0] == h[0] && s[|s| - 1] == sec[|sec| - 1];
    StripClockText(s, h, sec);
    ClockFields3(h, m, sec);
    FieldsSecondsThree(h, m, sec);
  }

  lemma FieldsSecondsThree(h: string, m: string, sec: string)
    requires IsDigitString(h) && IsDigitString(m) && IsDigitString(sec)
    ensures FieldsSeconds([h, m, sec]) == DecimalValue(h) * 3600 + DecimalValue(m) * 60 + DecimalValue(sec)
  {
    ParseIntOfDigits(h);
    ParseIntOfDigits(m);
    ParseIntOfDigits(sec);
  }

  /** Worked examples of the docstring. */
  lemma ParseDurationExampleMinutes()
    ensures ParseDuration("02:59") == 179
  {
    DecimalValuePair('0', '2');
    DecimalValuePair('5', '9');
    assert "02:59" == "02" + ":" + "59";
    ParseDurationTwoFields("02", "59");
  }

  lemma ParseDurationExampleHours()
    ensures ParseDuration("1:02:59") == 3779
  {
    assert DecimalValue("1") == 1 && DecimalValue("02") == 2 && DecimalValue("59") == 59;
    assert "1:02:59" == "1" + ":" + "02" + ":" + "59";
    ParseDurationThreeFields("1", "02", "59");
  }

  lemma ParseDurationExampleLong()
    ensures ParseDuration("02:59:00") == 10740
  {
    DecimalValuePair('0', '2');
    DecimalValuePair('5', '9');
    DecimalValuePair('0', '0');
    assert "02:59:00" == "02" + ":" + "59" + ":" + "00";
    ParseDurationThreeFields("02", "59", "00");
  }

  /** Four fields read as 0. */
  lemma ParseDurationRejectsFields()
    ensures ParseDuration("1:2:3:4") == 0
  {
    FourFields();
    StripUnchanged("1:2:3:4");
  }

  /** `"1:2:3:4"` splits into four fields. */
  lemma FourFields()
    ensures Split("1:2:3:4", ':') == ["1", "2", "3", "4"]
  {
    assert Join(["1", "2", "3", "4"], ":") == "1:2:3:4";
    SplitJoin(["1", "2", "3", "4"], ':');
  }

  /** Text without `:` is a single field, which reads as 0. */
  lemma {:induction false} ParseDurationOneField(s: string)
    requires ':' !in s
    ensures ParseDuration(s) == 0
  {
    if s != [] {
      StripIsSlice(s);
      var t := Strip(s);
      assert ':' !in t by {
        var k := |s| - |TrimLeft(s)|;
        forall i | 0 <= i < |t| ensures t[i] != ':' {
          assert t[i] == s[k + i];
        }
      }
      SplitNone(t, ':');
    }
  }

  /** Text that is no clock at all reads as 0: `"abc"` is a single field. */
  lemma ParseDurationRejectsText()
    ensures ParseDuration("abc") == 0
  {
    assert ':' !in "abc";
    ParseDurationOneField("abc");
  }

  /**
   * Two or three fields, one of which `int()` rejects: the `ValueError` is
   * caught and the text reads as 0.
   */
  lemma ParseDurationRejectsField(s: string, i: nat)
    requires var f := Split(Strip(s), ':'); (|f| == 2 || |f| == 3) && i < |f| && ParseInt(f[i]).None?
    ensures ParseDuration(s) == 0
  {
    if s != [] {
      FieldsSecondsRejects(Split(Strip(s), ':'), i);
    }
  }

  lemma FieldsSecondsRejects(f: seq<string>, i: nat)
    requires (|f| == 2 || |f| == 3) && i < |f| && ParseInt(f[i]).None?
    ensures FieldsSeconds(f) == 0
  {
    if i == 0 {
      assert ParseInt(f[0]) == None;
    } else if i == 1 {
      assert ParseInt(f[1]) == None;
    } else {
      assert ParseInt(f[2]) == None;
    }
  }

  /** `"ab:12"` has two fields, and `int("ab")` fails: it reads as 0. */
  lemma ParseDurationRejectsFieldExample()
    ensures ParseDuration("ab:12") == 0
  {
    TwoFieldsAb();
    ParseIntRejectsAb();
    ParseDurationRejectsField("ab:12", 0);
  }

  /** `"ab:12"` is stripped text with the two fields `ab` and `12`. */
  lemma TwoFieldsAb()
    ensures Split(Strip("ab:12"), ':') == ["ab", "12"]
  {
    StripUnchanged("ab:12");
    assert Join(["ab", "12"], ":") == "ab:12";
    SplitJoin(["ab", "12"], ':');
  }

  /** `int("ab")` raises. */
  lemma ParseIntRejectsAb()
    ensures ParseInt("ab").None?
  {
    StripUnchanged("ab");
    assert !IsDigit("ab"[0]);
  }

  /** The fields `format_duration` computes: whole hours, then minutes and seconds below 60. */
  lemma ClockParts(seconds: int)
    requires seconds > 0
    ensures var h, m, s := seconds / 3600, (seconds % 3600) / 60, seconds % 60;
      h >= 0 && 0 <= m < 60 && 0 <= s < 60 && h * 3600 + m * 60 + s == seconds
      && (h > 0 <==> seconds >= 3600)
  {
    var r := seconds % 3600;
    assert seconds == (seconds / 3600) * 3600 + r;
    assert r == (r / 60) * 60 + r % 60;
    assert r % 60 == seconds % 60;
  }

  /** The fields of `HH:MM:SS` for minutes and seconds below 60. */
  lemma ClockShape3(h: nat, m: nat, s: nat)
    requires m < 60 && s < 60
    ensures var f := Split(Pad2(h) + ":" + Pad2(m) + ":" + Pad2(s), ':');
      && |f| == 3
      && (forall i :: 0 <= i < |f| ==> IsDigitString(f[i]) && |f[i]| >= 2)
      && DecimalValue(f[2]) < 60 && DecimalValue(f[1]) < 60
  {
    ClockFields3(Pad2(h), Pad2(m), Pad2(s));
  }

  /** The fields of `MM:SS` for minutes and seconds below 60. */
  lemma ClockShape2(m: nat, s: nat)
    requires m < 60 && s < 60
    ensures var f := Split(Pad2(m) + ":" + Pad2(s), ':');
      && |f| == 2
      && (forall i :: 0 <= i < |f| ==> IsDigitString(f[i]) && |f[i]| >= 2)
      && DecimalValue(f[1]) < 60 && DecimalValue(f[0]) < 60
  {
    ClockFields2(Pad2(m), Pad2(s));
  }

  /** The fields of a formatted duration, and the zero case. */
  lemma FormatDurationShape(seconds: int)
    ensures seconds <= 0 ==> FormatDuration(seconds) == "00:00"
    ensures var f := Split(FormatDuration(seconds), ':');
      && (|f| == 3 <==> seconds >= 3600)
      && (|f| == 2 <==> seconds < 3600)
      && (forall i :: 0 <= i < |f| ==> IsDigitString(f[i]) && |f[i]| >= 2)
      && DecimalValue(f[|f| - 1]) < 60 && DecimalValue(f[|f| - 2]) < 60
  {
    if seconds <= 0 {
      assert FormatDuration(seconds) == Pad2(0) + ":" + Pad2(0);
      ClockShape2(0, 0);
    } else {
      ClockParts(seconds);
      var h, m, s := seconds / 3600, (seconds % 3600) / 60, seconds % 60;
      if h > 0 {
        ClockShape3(h, m, s);
      } else {
        ClockShape2(m, s);
      }
    }
  }

  /** Formatting a non-negative duration and parsing it back gives the same number of seconds. */
  lemma ParseFormatDuration(seconds: int)
    requires seconds >= 0
    ensures ParseDuration(FormatDuration(seconds)) == seconds
  {
    if seconds == 0 {
      assert FormatDuration(seconds) == Pad2(0) + ":" + Pad2(0);
      ParseDurationTwoFields(Pad2(0), Pad2(0));
    } else {
      ClockParts(seconds);
      var h, m, s := seconds / 3600, (seconds % 3600) / 60, seconds % 60;
      if h > 0 {
        ParseDurationThreeFields(Pad2(h), Pad2(m), Pad2(s));
      } else {
        ParseDurationTwoFields(Pad2(m), Pad2(s));
      }
    }
  }

  // ---------------------------------------------------------------------
  // View counts
  // ---------------------------------------------------------------------

  /** A character of the class `[\d,.]`. */
  predicate IsViewChar(c: char) {
    IsDigit(c) || c == ',' || c == '.'
  }

  predicate HasDigit(s: string) {
    exists i :: 0 <= i < |s| && IsDigit(s[i])
  }

  /** The longest prefix of `[\d,.]` characters. */
  function LeadingViewChars(s: string): (r: string)
    ensures StartsWith(s, r)
    ensures forall i :: 0 <= i < |r| ==> IsViewChar(r[i])
    ensures |r| < |s| ==> !IsViewChar(s[|r|])
  {
    if s != [] && IsViewChar(s[0]) then [s[0]] + LeadingViewChars(s[1..]) else ""
  }

  /** `re.search(r'([\d,.]+)', s)`: the first maximal run of `[\d,.]`. */
  function ViewRun(s: string): (r: Option<string>)
    ensures r.Some? ==> |r.value| > 0 && forall i :: 0 <= i < |r.value| ==> IsViewChar(r.value[i])
    ensures r.Some? && HasDigit(r.value) ==> HasDigit(s)
    decreases |s|
  {
    if s == [] then None
    else if IsViewChar(s[0]) then
      var run := LeadingViewChars(s);
      assert HasDigit(run) ==> HasDigit(s) by {
        if HasDigit(run) {
          var i :| 0 <= i < |run| && IsDigit(run[i]);
          assert s[i] == run[i];
        }
      }
      Some(run)
    else
      var r := ViewRun(s[1..]);
      assert r.Some? && HasDigit(r.value) ==> HasDigit(s) by {
        if r.Some? && HasDigit(r.value) {
          var i :| 0 <= i < |s| - 1 && IsDigit(s[1..][i]);
          assert s[i + 1] == s[1..][i];
        }
      }
      r
  }

  /** `s.replace(',', '')`, written as a filter. */
  function DropCommas(s: string): (r: string)
    ensures forall i :: 0 <= i < |r| ==> r[i] != ','
    ensures HasDigit(r) ==> HasDigit(s)
  {
    if s == [] then ""
    else
      var rest := DropCommas(s[1..]);
      var r := (if s[0] == ',' then "" else [s[0]]) + rest;
      assert HasDigit(r) ==> HasDigit(s) by {
        if HasDigit(r) {
          var i :| 0 <= i < |r| && IsDigit(r[i]);
          if s[0] != ',' && i == 0 {
            assert s[0] == r[0];
          } else {
            var j := if s[0] == ',' then i else i - 1;
            assert rest[j] == r[i];
            var k :| 0 <= k < |s| - 1 && IsDigit(s[1..][k]);
            assert s[k + 1] == s[1..][k];
          }
        }
      }
      r
  }

  /** The filter is the replacement the source performs. */
  lemma {:induction false} DropCommasIsReplace(s: string)
    ensures DropCommas(s) == ReplaceAll(s, ",", "")
  {
    if s != [] {
      DropCommasIsReplace(s[1..]);
      assert s[..1] == [s[0]];
    }
  }

  /**
   * The text `float()` accepts when it is made only of digits and dots: the
   * whole and fractional digits of `W`, `W.F`, `W.` or `.F`, with at least
   * one digit in all.
   */
  function DecimalParts(t: string): (r: Option<(string, string)>)
    ensures r.Some? ==> IsDigits(r.value.0) && IsDigits(r.value.1)
  {
    var f := Split(t, '.');
    if |f| == 1 && IsDigitString(f[0]) then Some((f[0], ""))
    else if |f| == 2 && IsDigits(f[0]) && IsDigits(f[1]) && |f[0]| + |f[1]| > 0 then Some((f[0], f[1]))
    else None
  }

  /** Accepted decimal text contains a digit. */
  lemma DecimalPartsHasDigit(t: string)
    requires DecimalParts(t).Some?
    ensures HasDigit(t)
  {
    var f := Split(t, '.');
    JoinSplit(t, '.');
    if |f| == 1 {
      assert t == f[0];
      assert IsDigit(t[0]);
    } else {
      assert t == f[0] + "." + f[1];
      if |f[0]| > 0 {
        assert t[0] == f[0][0];
      } else {
        assert t[1] == f[1][0];
      }
    }
  }

  function Pow10(k: nat): (p: nat)
    ensures p > 0
  {
    if k == 0 then 1 else 10 * Pow10(k - 1)
  }

  /** 万 or 萬 occurs in the text. */
  predicate HasWan(s: string) {
    '万' in s || '萬' in s
  }

  /**
   * The number a `[\d,.]` run stands for once its commas are dropped: read
   * as a decimal, times 10000 when `wan`, truncated; 0 when `float()` would
   * reject it.
   */
  function RunValue(run: string, wan: bool): (r: int)
    ensures r >= 0
  {
    match DecimalParts(DropCommas(run))
    case None => 0
    case Some(parts) => Truncated(parts.0, parts.1, wan)
  }

  /** A product of naturals is a natural; the solver is given it in a context of its own. */
  lemma MulNat(a: nat, b: nat)
    ensures a * b >= 0
  {
  }

  /** A quotient of naturals is a natural, likewise. */
  lemma DivNat(a: nat, b: nat)
    requires b > 0
    ensures a / b >= 0
  {
  }

  /** `int(float(w.f))`, or `int(float(w.f) * 10000)` with 万, on the exact decimal. */
  function Truncated(w: string, f: string, wan: bool): (r: int)
    requires IsDigits(w) && IsDigits(f)
    ensures r >= 0
  {
    if wan then
      var p := Pow10(|f|);
      MulNat(DecimalValue(w), p);
      var n: nat := DecimalValue(w) * p + DecimalValue(f);
      MulNat(n, 10000);
      var m: nat := n * 10000;
      DivNat(m, p);
      m / p
    else DecimalValue(w)
  }

  /**
   * `parse_views`: the first run of `[\d,.]` of the stripped text, read by
   * `RunValue` with the 万 factor when 万 or 萬 occurs anywhere in the text;
   * 0 for empty text or when there is no run.
   */
  function ParseViews(s: string): (r: int)
    ensures r >= 0
  {
    if s == [] then 0
    else
      var t := Strip(s);
      match ViewRun(t)
      case None => 0
      case Some(run) => RunValue(run, HasWan(t))
  }

  /** A run without a digit is not a number. */
  lemma RunValueNoDigit(run: string, wan: bool)
    requires !HasDigit(run)
    ensures RunValue(run, wan) == 0
  {
    var t := DropCommas(run);
    if DecimalParts(t).Some? {
      DecimalPartsHasDigit(t);
    }
  }

  /** Stripping keeps text free of digits. */
  lemma StripNoDigit(s: string)
    requires !HasDigit(s)
    ensures !HasDigit(Strip(s))
  {
    var t := Strip(s);
    StripIsSlice(s);
    var k := |s| - |TrimLeft(s)|;
    forall i | 0 <= i < |t| ensures !IsDigit(t[i]) {
      assert t[i] == s[k + i];
    }
  }

  /** Text without a digit reads as 0 views. */
  lemma ParseViewsNoDigit(s: string)
    requires !HasDigit(s)
    ensures ParseViews(s) == 0
  {
    if s != [] {
      StripNoDigit(s);
      var t := Strip(s);
      var r := ViewRun(t);
      if r.Some? {
        RunValueNoDigit(r.value, HasWan(t));
      }
    }
  }

  lemma {:induction false} LeadingViewCharsOf(d: string, rest: string)
    requires forall i :: 0 <= i < |d| ==> IsViewChar(d[i])
    requires rest == [] || !IsViewChar(rest[0])
    ensures LeadingViewChars(d + rest) == d
  {
    if d != [] {
      assert (d + rest)[1..] == d[1..] + rest;
      LeadingViewCharsOf(d[1..], rest);
    }
  }

  lemma {:induction false} DropCommasNone(s: string)
    requires forall i :: 0 <= i < |s| ==> s[i] != ','
    ensures DropCommas(s) == s
  {
    if s != [] {
      DropCommasNone(s[1..]);
      assert [s[0]] + s[1..] == s;
    }
  }

  /** A run that starts stripped text and is followed by its end or a non-run character. */
  lemma ParseViewsOfRun(run: string, rest: string)
    requires |run| > 0 && IsDigit(run[0]) && forall i :: 0 <= i < |run| ==> IsViewChar(run[i])
    requires rest == [] || (!IsViewChar(rest[0]) && !IsSpace(rest[|rest| - 1]))
    ensures ParseViews(run + rest) == RunValue(run, HasWan(run + rest))
  {
    var s := run + rest;
    assert s[0] == run[0];
    if rest != [] {
      assert s[|s| - 1] == rest[|rest| - 1];
      assert s[|run|] == rest[0];
    } else {
      assert s == run;
      assert s[|s| - 1] == run[|run| - 1];
    }
    StripUnchanged(s);
    LeadingViewCharsOf(run, rest);
  }

  /**
   * `label + run + rest` with no whitespace at either end, where the label
   * holds no `[\d,.]` character and `run` is a whole run of that class: the
   * shape of the text `_extract_views` hands over, such as `觀看次數：9.7万次`.
   */
  predicate LabelledRun(pre: string, run: string, rest: string) {
    && (forall i :: 0 <= i < |pre| ==> !IsViewChar(pre[i]))
    && |run| > 0 && (forall i :: 0 <= i < |run| ==> IsViewChar(run[i]))
    && (rest == [] || !IsViewChar(rest[0]))
    && (pre == [] || !IsSpace(pre[0]))
    && (rest == [] || !IsSpace(rest[|rest| - 1]))
  }

  /** Text free of the run class leaves the search to what follows it. */
  lemma {:induction false} ViewRunSkip(pre: string, x: string)
    requires forall i :: 0 <= i < |pre| ==> !IsViewChar(pre[i])
    ensures ViewRun(pre + x) == ViewRun(x)
  {
    if pre != [] {
      assert !IsViewChar(pre[0]);
      assert (pre + x)[0] == pre[0];
      assert (pre + x)[1..] == pre[1..] + x;
      ViewRunSkip(pre[1..], x);
    } else {
      assert pre + x == x;
    }
  }

  /** A run at the head of the text is the one the search returns. */
  lemma ViewRunAtHead(run: string, rest: string)
    requires |run| > 0 && forall i :: 0 <= i < |run| ==> IsViewChar(run[i])
    requires rest == [] || !IsViewChar(rest[0])
    ensures ViewRun(run + rest) == Some(run)
  {
    assert (run + rest)[0] == run[0];
    LeadingViewCharsOf(run, rest);
  }

  /**
   * A labelled count: the first run is read, with the factor of ten thousand
   * exactly when 万 or 萬 occurs anywhere in the text.
   */
  lemma ParseViewsLabelled(pre: string, run: string, rest: string)
    requires LabelledRun(pre, run, rest)
    ensures ParseViews(pre + run + rest) == RunValue(run, HasWan(pre + run + rest))
  {
    var s := pre + run + rest;
    assert s == pre + (run + rest);
    if pre != [] {
      assert s[0] == pre[0];
    } else {
      assert s[0] == run[0];
    }
    if rest != [] {
      assert s[|s| - 1] == rest[|rest| - 1];
    } else {
      assert s[|s| - 1] == run[|run| - 1];
    }
    StripUnchanged(s);
    ViewRunSkip(pre, run + rest);
    ViewRunAtHead(run, rest);
  }

  /** `parse_views` strips its argument first: padding changes nothing. */
  lemma ParseViewsStrip(s: string)
    ensures ParseViews(s) == ParseViews(Strip(s))
  {
    StripIdempotent(s);
  }

  /** `9.7` is ninety-seven tenths: 97000 with the factor of ten thousand. */
  lemma RunValueNineSeven()
    ensures RunValue("9.7", true) == 97000
  {
    RunValueOfDecimal("9", "7", true);
    assert "9" + "." + "7" == "9.7";
  }

  /** `9.7` under any label, with 万 or 萬 in the text, reads as 97000. */
  lemma ParseViewsNineSevenWan(pre: string, rest: string)
    requires LabelledRun(pre, "9.7", rest) && HasWan(pre + "9.7" + rest)
    ensures ParseViews(pre + "9.7" + rest) == 97000
  {
    ParseViewsLabelled(pre, "9.7", rest);
    RunValueNineSeven();
  }

  /** The docstring's `9.7万次` reads as 97000. */
  lemma ParseViewsWanExample()
    ensures ParseViews("9.7万次") == 97000
  {
    var s := "9.7万次";
    assert s == "" + "9.7" + "万次";
    assert s[3] == '万';
    ParseViewsNineSevenWan("", "万次");
  }

  /** The docstring's `9.7萬次`, with the traditional character, reads as 97000. */
  lemma ParseViewsTraditionalWanExample()
    ensures ParseViews("9.7萬次") == 97000
  {
    var s := "9.7萬次";
    assert s == "" + "9.7" + "萬次";
    assert s[3] == '萬';
    ParseViewsNineSevenWan("", "萬次");
  }

  /** The docstring's bare `9.7万` reads as 97000. */
  lemma ParseViewsBareWanExample()
    ensures ParseViews("9.7万") == 97000
  {
    var s := "9.7万";
    assert s == "" + "9.7" + "万";
    assert s[3] == '万';
    ParseViewsNineSevenWan("", "万");
  }

  /** A run and a suffix of one character that is neither 万 nor 萬. */
  lemma NoWanSuffix(run: string, c: char)
    requires forall i :: 0 <= i < |run| ==> IsViewChar(run[i])
    requires c != '万' && c != '萬'
    ensures !HasWan(run + [c])
  {
    var s := run + [c];
    forall i | 0 <= i < |s| ensures s[i] != '万' && s[i] != '萬' {
      if i < |run| {
        assert s[i] == run[i] && IsViewChar(run[i]);
      }
    }
  }

  /** The values of `9700` and `97000`, one digit at a time. */
  lemma DecimalValueNinetySeven()
    ensures DecimalValue("9700") == 9700 && DecimalValue("97000") == 97000
  {
    assert "9"[..0] == [];
    assert "9" + ['7'] == "97";
    DecimalValueSnoc("9", '7');
    assert "97" + ['0'] == "970";
    DecimalValueSnoc("97", '0');
    assert "970" + ['0'] == "9700";
    DecimalValueSnoc("970", '0');
    assert "9700" + ['0'] == "97000";
    DecimalValueSnoc("9700", '0');
  }

  /** The docstring's `97000次` reads as 97000. */
  lemma ParseViewsPlainExample()
    ensures ParseViews("97000次") == 97000
  {
    var run := "97000";
    PlainRunValue();
    assert "97000次" == "" + run + "次";
    NoWanSuffix(run, '次');
    ParseViewsLabelled("", run, "次");
  }

  /** `97000` is a run of the class, read as 97000. */
  lemma PlainRunValue()
    ensures forall i :: 0 <= i < |"97000"| ==> IsViewChar("97000"[i])
    ensures RunValue("97000", false) == 97000
  {
    var d := "97000";
    assert IsDigitString(d);
    RunValueOfDigits(d, false);
    DecimalValueNinetySeven();
  }

  /** The docstring's `9,700次` reads as 9700: the comma is dropped. */
  lemma ParseViewsCommaExample()
    ensures ParseViews("9,700次") == 9700
  {
    var run := "9,700";
    CommaRunValue();
    assert "9,700次" == "" + run + "次";
    NoWanSuffix(run, '次');
    ParseViewsLabelled("", run, "次");
  }

  /** `9,700` is a run of the class, read as 9700. */
  lemma CommaRunValue()
    ensures forall i :: 0 <= i < |"9,700"| ==> IsViewChar("9,700"[i])
    ensures RunValue("9,700", false) == 9700
  {
    var a, b := "9", "700";
    assert IsDigitString(a) && IsDigitString(b);
    assert a + "," + b == "9,700";
    assert a + b == "9700";
    JoinedChars(a, ',', b);
    RunValueOfCommaGroups(a, b);
    DecimalValueNinetySeven();
  }

  /** The labelled count of a watch page: `觀看次數：9.7萬次` reads as 97000. */
  lemma ParseViewsLabelledExample()
    ensures ParseViews("觀看次數：9.7萬次") == 97000
  {
    var s := "觀看次數：9.7萬次";
    assert s == "觀看次數：" + "9.7" + "萬次";
    assert s[8] == '萬';
    ParseViewsNineSevenWan("觀看次數：", "萬次");
  }

  /** A digit run is read as its value, times ten thousand with 万. */
  lemma RunValueOfDigits(d: string, wan: bool)
    requires IsDigitString(d)
    ensures RunValue(d, wan) == if wan then DecimalValue(d) * 10000 else DecimalValue(d)
  {
    assert forall i :: 0 <= i < |d| ==> d[i] != ',' && d[i] != '.';
    DropCommasNone(d);
    SplitNone(d, '.');
  }

  /** `w.f` splits at its one dot. */
  lemma DecimalPartsOf(w: string, f: string)
    requires IsDigits(w) && IsDigits(f) && |w| + |f| > 0
    ensures DecimalParts(w + "." + f) == Some((w, f))
  {
    assert '.' !in w && '.' !in f by { assert !IsDigit('.'); }
    SplitNone(f, '.');
    SplitFirst(w, f, '.');
  }

  /** Digits and a dot hold no comma. */
  lemma DecimalNoComma(w: string, f: string)
    requires IsDigits(w) && IsDigits(f)
    ensures DropCommas(w + "." + f) == w + "." + f
  {
    var run := w + "." + f;
    forall i | 0 <= i < |run| ensures run[i] != ',' {
      if i < |w| {
        assert run[i] == w[i];
      } else if i > |w| {
        assert run[i] == f[i - |w| - 1];
      }
    }
    DropCommasNone(run);
  }

  /** A run `w.f` is read as the exact decimal, times ten thousand with 万, truncated. */
  lemma RunValueOfDecimal(w: string, f: string, wan: bool)
    requires IsDigitString(w) && IsDigits(f)
    ensures RunValue(w + "." + f, wan) == Truncated(w, f, wan)
  {
    DecimalNoComma(w, f);
    DecimalPartsOf(w, f);
  }

  /** Digits alone read as their value; followed by 万 they read as ten thousand times it. */
  lemma ParseViewsOfDigits(d: string)
    requires IsDigitString(d)
    ensures ParseViews(d) == DecimalValue(d)
    ensures ParseViews(d + "万") == DecimalValue(d) * 10000
  {
    assert forall i :: 0 <= i < |d| ==> IsViewChar(d[i]) && d[i] != '万' && d[i] != '萬';
    ParseViewsOfRun(d, "");
    assert d + "" == d;
    RunValueOfDigits(d, false);
    var s := d + "万";
    assert s[|d|] == '万';
    ParseViewsOfRun(d, "万");
    RunValueOfDigits(d, true);
  }

  /** A decimal `w.f` followed by 万 reads as its value times ten thousand, truncated. */
  lemma ParseViewsOfWanDecimal(w: string, f: string)
    requires IsDigitString(w) && IsDigitString(f)
    ensures ParseViews(w + "." + f + "万") == Truncated(w, f, true)
  {
    var run := w + "." + f;
    var s := run + "万";
    assert s[|run|] == '万';
    ParseViewsOfRun(run, "万");
    RunValueOfDecimal(w, f, true);
  }

  /** Appending a digit shifts the value one place. */
  lemma DecimalValueSnoc(d: string, c: char)
    requires IsDigits(d) && IsDigit(c)
    ensures DecimalValue(d + [c]) == DecimalValue(d) * 10 + DigitValue(c)
  {
    assert (d + [c])[..|d|] == d;
  }

  /** Two runs joined by a separator of the run class form a run. */
  lemma JoinedChars(a: string, sep: char, b: string)
    requires |a| > 0 && IsDigit(a[0]) && IsViewChar(sep)
    requires forall i :: 0 <= i < |a| ==> IsViewChar(a[i]) && (sep != ',' ==> a[i] != ',')
    requires forall i :: 0 <= i < |b| ==> IsViewChar(b[i]) && (sep != ',' ==> b[i] != ',')
    ensures var run := a + [sep] + b;
      && run[0] == a[0]
      && (forall i :: 0 <= i < |run| ==> IsViewChar(run[i]) && (sep != ',' ==> run[i] != ','))
      && !HasWan(run)
  {
    var run := a + [sep] + b;
    forall i | 0 <= i < |run| ensures IsViewChar(run[i]) && (sep != ',' ==> run[i] != ',') {
      if i < |a| {
        assert run[i] == a[i];
      } else if i > |a| {
        assert run[i] == b[i - |a| - 1];
      }
    }
  }

  lemma DigitsAppend(a: string, b: string)
    requires IsDigits(a) && IsDigits(b)
    ensures IsDigits(a + b)
  {
    assert forall i :: 0 <= i < |a + b| ==> (a + b)[i] == if i < |a| then a[i] else b[i - |a|];
  }

  /** Commas inside the run are ignored: `a,b` reads as the digits of `a` and `b` together. */
  lemma ParseViewsOfCommaGroups(a: string, b: string)
    requires IsDigitString(a) && IsDigitString(b)
    ensures ParseViews(a + "," + b) == DecimalValue(a + b)
  {
    JoinedChars(a, ',', b);
    var run := a + "," + b;
    ParseViewsOfRun(run, "");
    assert run + "" == run;
    RunValueOfCommaGroups(a, b);
  }

  lemma RunValueOfCommaGroups(a: string, b: string)
    requires IsDigitString(a) && IsDigitString(b)
    ensures RunValue(a + "," + b, false) == DecimalValue(a + b)
  {
    DigitsAppend(a, b);
    DropCommasOfGroups(a, b);
    assert forall i :: 0 <= i < |a + b| ==> (a + b)[i] != ',';
    DropCommasNone(a + b);
    RunValueOfDigits(a + b, false);
  }

  lemma DropCommasOfGroups(a: string, b: string)
    requires IsDigits(a) && IsDigits(b)
    ensures DropCommas(a + "," + b) == a + b
  {
    DropCommasNone(a);
    DropCommasLead(b);
    DropCommasAppend(a, "," + b);
    assert a + "," + b == a + ("," + b);
  }

  lemma DropCommasLead(b: string)
    requires IsDigits(b)
    ensures DropCommas("," + b) == b
  {
    assert ("," + b)[0] == ',' && ("," + b)[1..] == b;
    DropCommasNone(b);
  }

  lemma {:induction false} DropCommasAppend(a: string, b: string)
    ensures DropCommas(a + b) == DropCommas(a) + DropCommas(b)
  {
    if a == [] {
      assert a + b == b;
    } else {
      assert (a + b)[1..] == a[1..] + b;
      DropCommasAppend(a[1..], b);
    }
  }

  /** A run with two dots is not a number `float()` accepts, and reads as 0. */
  lemma ParseViewsOfTwoDots(a: string, b: string, c: string)
    requires IsDigitString(a) && IsDigits(b) && IsDigits(c)
    ensures ParseViews(a + "." + b + "." + c) == 0
  {
    var bc := b + "." + c;
    assert forall i :: 0 <= i < |c| ==> IsViewChar(c[i]) && c[i] != ',';
    if |b| > 0 {
      JoinedChars(b, '.', c);
    } else {
      forall i | 0 <= i < |bc| ensures IsViewChar(bc[i]) && bc[i] != ',' {
        if i > 0 {
          assert bc[i] == c[i - 1];
        }
      }
    }
    JoinedChars(a, '.', bc);
    var run := a + "." + bc;
    assert run == a + "." + b + "." + c;
    ParseViewsOfRun(run, "");
    assert run + "" == run;
    DropCommasNone(run);
    RunValueOfTwoDots(a, b, c);
  }

  lemma RunValueOfTwoDots(a: string, b: string, c: string)
    requires IsDigitString(a) && IsDigits(b) && IsDigits(c)
    requires DropCommas(a + "." + (b + "." + c)) == a + "." + (b + "." + c)
    ensures RunValue(a + "." + (b + "." + c), false) == 0
  {
    assert '.' !in a && '.' !in b && '.' !in c by { assert !IsDigit('.'); }
    SplitNone(c, '.');
    SplitFirst(b, c, '.');
    SplitFirst(a, b + "." + c, '.');
  }

  /** `f"{t / 10:.1f}"` for a count of tenths. */
  function Tenths(t: nat): string {
    NatToString(t / 10) + "." + [DigitChar(t % 10)]
  }

  /**
   * `format_views`: tens of thousands with one decimal and 万 from 10000 on,
   * thousands with one decimal and `k` from 1000 on, the plain number below.
   * The decimal is rounded half up on the exact value.
   */
  function FormatViews(views: int): (r: string)
    ensures r != []
  {
    if views >= 10000 then Tenths((views + 500) / 1000) + "万"
    else if views >= 1000 then Tenths((views + 50) / 100) + "k"
    else IntToString(views)
  }

  /** The suffix tells which branch was taken. */
  lemma FormatViewsSuffix(views: int)
    ensures var r := FormatViews(views);
      && (views >= 10000 <==> |r| > 0 && r[|r| - 1] == '万')
      && (1000 <= views < 10000 <==> |r| > 0 && r[|r| - 1] == 'k')
      && (views < 1000 ==> r == IntToString(views))
  {
    if views < 1000 {
      var n := NatToString(if views < 0 then -views else views);
      var r := FormatViews(views);
      assert r[|r| - 1] == n[|n| - 1];
      assert IsDigit(n[|n| - 1]);
    }
  }

  /** The digits of a tenths count read back as that count. */
  lemma TruncatedTenths(w: string, f: string, t: nat)
    requires IsDigits(w) && IsDigits(f) && |f| == 1
    requires DecimalValue(w) == t / 10 && DecimalValue(f) == t % 10
    ensures Truncated(w, f, true) == t * 1000
    ensures Truncated(w, f, false) == t / 10
  {
    assert Pow10(1) == 10;
    assert DecimalValue(w) * 10 + DecimalValue(f) == t;
    assert t * 10000 / 10 == t * 1000;
  }

  /** The text of `Tenths(t)` is one `[\d,.]` run that starts with a digit. */
  lemma TenthsRun(t: nat)
    ensures var run := Tenths(t);
      |run| > 0 && IsDigit(run[0]) && forall i :: 0 <= i < |run| ==> IsViewChar(run[i])
  {
    var w := NatToString(t / 10);
    var run := Tenths(t);
    forall i | 0 <= i < |run| ensures IsViewChar(run[i]) {
      if i < |w| {
        assert run[i] == w[i];
      }
    }
    assert run[0] == w[0];
  }

  /** `Tenths(t)` read as a run: `t` tenths, times 10000 with 万. */
  lemma TenthsValue(t: nat, wan: bool)
    ensures RunValue(Tenths(t), wan) == if wan then t * 1000 else t / 10
  {
    var w := NatToString(t / 10);
    var f := [DigitChar(t % 10)];
    DecimalValueOfNatToString(t / 10);
    assert DecimalValue(f) == t % 10 by { assert f[..0] == []; }
    TruncatedTenths(w, f, t);
    RunValueOfDecimal(w, f, wan);
  }

  /** A run followed by `k` holds no 万 or 萬. */
  lemma ViewRunNoWan(run: string)
    requires forall i :: 0 <= i < |run| ==> IsViewChar(run[i])
    ensures !HasWan(run + "k")
  {
    var s := run + "k";
    forall i | 0 <= i < |s| ensures s[i] != '万' && s[i] != '萬' {
      if i < |run| {
        assert s[i] == run[i] && IsViewChar(run[i]);
      }
    }
  }

  /** Reading a formatted tenths count followed by `suffix`. */
  lemma ParseTenths(t: nat, suffix: string, wan: bool)
    requires suffix == (if wan then "万" else "k")
    ensures ParseViews(Tenths(t) + suffix) == if wan then t * 1000 else t / 10
  {
    var run := Tenths(t);
    TenthsRun(t);
    ParseViewsOfRun(run, suffix);
    if wan {
      assert (run + suffix)[|run|] == '万';
      TenthsValue(t, true);
    } else {
      ViewRunNoWan(run);
      TenthsValue(t, false);
    }
  }

  /** From 10000 on, the formatted count reads back within 500 of the count. */
  lemma ParseFormatViewsWan(views: int)
    requires views >= 10000
    ensures -500 <= ParseViews(FormatViews(views)) - views <= 500
  {
    ParseTenths((views + 500) / 1000, "万", true);
  }

  /**
   * Between 1000 and 9999 the `k` is not read back: the count reads as its
   * thousands, rounded down or, from a half-hundred up, to the next one.
   */
  lemma ParseFormatViewsThousands(views: int)
    requires 1000 <= views < 10000
    ensures views / 1000 <= ParseViews(FormatViews(views)) <= (views + 50) / 1000
  {
    ParseTenths((views + 50) / 100, "k", false);
  }

  /** Below 1000 a count reads back exactly. */
  lemma ParseFormatViewsSmall(views: int)
    requires 0 <= views < 1000
    ensures ParseViews(FormatViews(views)) == views
  {
    var d := NatToString(views);
    assert FormatViews(views) == d;
    assert ParseViews(d) == DecimalValue(d) by {
      ParseViewsOfDigits(d);
    }
    DecimalValueOfNatToString(views);
  }

  // ---------------------------------------------------------------------
  // File names
  // ---------------------------------------------------------------------

  /** A character of `[<>:"/\\|?*]`. */
  predicate IsIllegal(c: char) {
    c == '<' || c == '>' || c == ':' || c == '"' || c == '/' || c == '\\' || c == '|' || c == '?' || c == '*'
  }

  /** A character of `[\x00-\x1f\x7f]`. */
  predicate IsControl(c: char) {
    c <= '\U{1f}' || c == '\U{7f}'
  }

  function ReplaceIllegal(s: string): (r: string)
    ensures |r| == |s|
    ensures forall i :: 0 <= i < |s| ==> r[i] == if IsIllegal(s[i]) then '_' else s[i]
  {
    if s == [] then "" else [if IsIllegal(s[0]) then '_' else s[0]] + ReplaceIllegal(s[1..])
  }

  function DropControl(s: string): (r: string)
    ensures |r| <= |s|
    ensures forall i :: 0 <= i < |r| ==> !IsControl(r[i])
    ensures (forall i :: 0 <= i < |s| ==> !IsIllegal(s[i])) ==> forall i :: 0 <= i < |r| ==> !IsIllegal(r[i])
    ensures (forall i :: 0 <= i < |s| ==> !IsControl(s[i])) ==> r == s
  {
    if s == [] then ""
    else
      var rest := DropControl(s[1..]);
      assert s == [s[0]] + s[1..];
      (if IsControl(s[0]) then "" else [s[0]]) + rest
  }

  /**
   * `sanitize_filename`: illegal characters become `_`, control characters
   * are dropped, the name is cut to 200 characters and stripped.
   */
  function SanitizeFilename(name: string): (r: string)
    ensures forall i :: 0 <= i < |r| ==> !IsIllegal(r[i]) && !IsControl(r[i])
    ensures |r| <= 200
  {
    var a := ReplaceIllegal(name);
    var b := DropControl(a);
    var c := if |b| > 200 then b[..200] else b;
    StripKeepsLegal(c);
    Strip(c)
  }

  predicate IsLegalName(s: string) {
    forall i :: 0 <= i < |s| ==> !IsIllegal(s[i]) && !IsControl(s[i])
  }

  lemma StripKeepsLegal(s: string)
    requires IsLegalName(s)
    ensures IsLegalName(Strip(s))
  {
    var t := Strip(s);
    StripIsSlice(s);
    var k := |s| - |TrimLeft(s)|;
    forall i | 0 <= i < |t| ensures !IsIllegal(t[i]) && !IsControl(t[i]) {
      assert t[i] == s[k + i];
    }
  }

  /** A name that is already clean, short and stripped is kept as it is. */
  lemma SanitizeFilenameKeeps(name: string)
    requires forall i :: 0 <= i < |name| ==> !IsIllegal(name[i]) && !IsControl(name[i])
    requires |name| <= 200 && Strip(name) == name
    ensures SanitizeFilename(name) == name
  {
    assert ReplaceIllegal(name) == name;
  }

  /** Sanitising twice is sanitising once. */
  lemma SanitizeFilenameIdempotent(name: string)
    ensures SanitizeFilename(SanitizeFilename(name)) == SanitizeFilename(name)
  {
    var r := SanitizeFilename(name);
    StripUnchanged(r);
    SanitizeFilenameKeeps(r);
  }

  // ---------------------------------------------------------------------
  // HTML to text
  // ---------------------------------------------------------------------

  /** One rebinding step of `clean_html`. */
  datatype CleanStep =
    | DropBlocks(open: string, close: string)  // a `<script ...>...</script>`-style block, any case
    | DropTags                                 // `<[^>]+>`
    | Replace(pat: string, rep: string)        // `str.replace`
    | CollapseWhitespace                       // `\s+` to one space
    | StripEnds                                // `str.strip()`

  predicate WellFormedStep(st: CleanStep) {
    && (st.DropBlocks? ==> |st.open| > 0)
    && (st.Replace? ==> |st.pat| > 0)
  }

  predicate WellFormedSteps(steps: seq<CleanStep>) {
    forall i :: 0 <= i < |steps| ==> WellFormedStep(steps[i])
  }

  function ApplyStep(st: CleanStep, s: string): string
    requires WellFormedStep(st)
  {
    match st
    case DropBlocks(open, close) => RemoveBlocks(s, open, close)
    case DropTags => RemoveTags(s)
    case Replace(pat, rep) => ReplaceAll(s, pat, rep)
    case CollapseWhitespace => CollapseSpace(s)
    case StripEnds => Strip(s)
  }

  /** The steps applied one after the other, each to the previous one's result. */
  function RunSteps(steps: seq<CleanStep>, s: string): string
    requires WellFormedSteps(steps)
    decreases |steps|
  {
    if steps == [] then s else RunSteps(steps[1..], ApplyStep(steps[0], s))
  }

  /** Script and style blocks, then all tags. */
  const MarkupSteps: seq<CleanStep> :=
    [DropBlocks("<script", "</script>"), DropBlocks("<style", "</style>"), DropTags]

  /** The six entity replacements, in the source's order (`&amp;` after `&lt;` and `&gt;`). */
  const EntitySteps: seq<CleanStep> :=
    [Replace("&nbsp;", " "), Replace("&lt;", "<"), Replace("&gt;", ">"),
     Replace("&amp;", "&"), Replace("&quot;", "\""), Replace("&#39;", "'")]

  /** The whole pipeline of `clean_html` after its empty-input test. */
  const CleanSteps: seq<CleanStep> := MarkupSteps + EntitySteps + SpaceSteps

  lemma {:induction false} RunStepsAppend(a: seq<CleanStep>, b: seq<CleanStep>, s: string)
    requires WellFormedSteps(a) && WellFormedSteps(b)
    ensures WellFormedSteps(a + b)
    ensures RunSteps(a + b, s) == RunSteps(b, RunSteps(a, s))
    decreases |a|
  {
    if a != [] {
      assert (a + b)[0] == a[0] && (a + b)[1..] == a[1..] + b;
      RunStepsAppend(a[1..], b, ApplyStep(a[0], s));
    } else {
      assert a + b == b;
    }
  }

  function DecodeEntities(s: string): string {
    RunSteps(EntitySteps, s)
  }

  function StripMarkup(s: string): string {
    RunSteps(MarkupSteps, s)
  }

  /** The markup steps spelled out. */
  lemma StripMarkupIs(s: string)
    ensures StripMarkup(s) == RemoveTags(RemoveBlocks(RemoveBlocks(s, "<script", "</script>"), "<style", "</style>"))
  {
    var m := MarkupSteps;
    var a := RemoveBlocks(s, "<script", "</script>");
    var b := RemoveBlocks(a, "<style", "</style>");
    assert RunSteps(m, s) == RunSteps(m[1..], a);
    assert RunSteps(m[1..], a) == RunSteps(m[2..], b);
    assert RunSteps(m[2..], b) == RunSteps(m[3..], RemoveTags(b));
    assert m[3..] == [];
  }

  /** The entity steps spelled out. */
  lemma DecodeEntitiesIs(s: string)
    ensures DecodeEntities(s)
         == ReplaceAll(ReplaceAll(ReplaceAll(ReplaceAll(ReplaceAll(ReplaceAll(
              s, "&nbsp;", " "), "&lt;", "<"), "&gt;", ">"), "&amp;", "&"), "&quot;", "\""), "&#39;", "'")
  {
    var e := EntitySteps;
    var a := ReplaceAll(s, "&nbsp;", " ");
    var b := ReplaceAll(a, "&lt;", "<");
    var c := ReplaceAll(b, "&gt;", ">");
    var d := ReplaceAll(c, "&amp;", "&");
    var f := ReplaceAll(d, "&quot;", "\"");
    assert RunSteps(e, s) == RunSteps(e[1..], a);
    assert RunSteps(e[1..], a) == RunSteps(e[2..], b);
    assert RunSteps(e[2..], b) == RunSteps(e[3..], c);
    assert RunSteps(e[3..], c) == RunSteps(e[4..], d);
    assert RunSteps(e[4..], d) == RunSteps(e[5..], f);
    assert RunSteps(e[5..], f) == RunSteps(e[6..], ReplaceAll(f, "&#39;", "'"));
    assert e[6..] == [];
  }

  /** The last two steps: whitespace runs collapsed, then the ends stripped. */
  lemma CleanStepsAre(s: string)
    ensures WellFormedSteps(CleanSteps)
    ensures RunSteps(CleanSteps, s) == Strip(CollapseSpace(DecodeEntities(StripMarkup(s))))
  {
    RunStepsAppend(MarkupSteps, EntitySteps, s);
    RunStepsAppend(MarkupSteps + EntitySteps, SpaceSteps, s);
    SpaceStepsAre(DecodeEntities(StripMarkup(s)));
  }

  /** Whitespace runs collapsed, then the ends stripped. */
  const SpaceSteps: seq<CleanStep> := [CollapseWhitespace, StripEnds]

  lemma SpaceStepsAre(x: string)
    ensures WellFormedSteps(SpaceSteps)
    ensures RunSteps(SpaceSteps, x) == Strip(CollapseSpace(x))
  {
    var t := SpaceSteps;
    assert RunSteps(t, x) == RunSteps(t[1..], CollapseSpace(x));
    assert RunSteps(t[1..], CollapseSpace(x)) == RunSteps(t[2..], Strip(CollapseSpace(x)));
    assert t[2..] == [];
  }

  /** What the pipeline leaves: stripped, single plain spaces. */
  lemma CleanStepsShape(s: string)
    ensures WellFormedSteps(CleanSteps)
    ensures var r := RunSteps(CleanSteps, s);
      (r == [] || (!IsSpace(r[0]) && !IsSpace(r[|r| - 1]))) && NoDoubleSpace(r) && PlainSpaces(r)
  {
    CleanStepsAre(s);
    StripKeepsNoDoubleSpace(CollapseSpace(DecodeEntities(StripMarkup(s))));
  }

  /**
   * `clean_html`: markup removed, entities decoded, whitespace runs made a
   * single space, and the ends stripped.
   */
  function CleanHtml(html: string): (r: string)
    ensures html == [] ==> r == []
    ensures r == [] || (!IsSpace(r[0]) && !IsSpace(r[|r| - 1]))
  {
    if html == [] then ""
    else
      CleanStepsShape(html);
      RunSteps(CleanSteps, html)
  }

  /** The output has single plain spaces only. */
  lemma CleanHtmlSpaces(html: string)
    ensures NoDoubleSpace(CleanHtml(html)) && PlainSpaces(CleanHtml(html))
  {
    if html != [] {
      CleanStepsShape(html);
    }
  }

  /** A non-empty input goes through the whole pipeline. */
  lemma CleanHtmlIs(html: string)
    requires html != []
    ensures CleanHtml(html) == Strip(CollapseSpace(DecodeEntities(StripMarkup(html))))
  {
    CleanStepsAre(html);
  }

  /** Text without `<` has no markup to remove. */
  lemma StripMarkupPlain(s: string)
    requires '<' !in s
    ensures StripMarkup(s) == s
  {
    StripMarkupIs(s);
    assert s + [] == s;
    RemoveBlocksPlain(s, [], "<script", "</script>");
    RemoveBlocksPlain(s, [], "<style", "</style>");
    RemoveTagsPlain(s, []);
  }

  /** A pattern starting with `&` leaves text without `&` alone. */
  lemma AmpFree(u: string, pat: string, rep: string)
    requires |pat| > 0 && pat[0] == '&' && '&' !in u
    ensures ReplaceAll(u, pat, rep) == u
  {
    assert u + [] == u;
    ReplaceAllPrefix(u, [], pat, rep);
  }

  /** One entity replacement that does not apply to `p&amp;x`. */
  lemma AmpUntouched(p: string, x: string, pat: string, rep: string)
    requires '&' !in p && '&' !in x && |pat| >= 2 && pat[0] == '&' && pat[1] != 'a'
    ensures ReplaceAll(p + "&amp;" + x, pat, rep) == p + "&amp;" + x
  {
    var u := "amp;" + x;
    var t := ['&'] + u;
    assert p + "&amp;" + x == p + t;
    assert ReplaceAll(p + t, pat, rep) == p + ReplaceAll(t, pat, rep) by {
      ReplaceAllPrefix(p, t, pat, rep);
    }
    assert ReplaceAll(t, pat, rep) == [t[0]] + ReplaceAll(t[1..], pat, rep) by {
      assert !StartsWith(t, pat) by { assert t[1] == 'a'; }
      ReplaceAllMiss(t, pat, rep);
    }
    assert ReplaceAll(u, pat, rep) == u by {
      assert '&' !in u by { assert u == "amp;" + x; }
      AmpFree(u, pat, rep);
    }
    assert t[1..] == u;
  }

  /** One entity replacement that does not apply to `p&x`. */
  lemma AmpDecodedUntouched(p: string, x: string, pat: string, rep: string)
    requires '&' !in p && '&' !in x && |pat| >= 2 && pat[0] == '&' && (x == [] || pat[1] != x[0])
    ensures ReplaceAll(p + "&" + x, pat, rep) == p + "&" + x
  {
    var t := "&" + x;
    assert p + "&" + x == p + t;
    ReplaceAllPrefix(p, t, pat, rep);
    assert !StartsWith(t, pat) by {
      if |pat| <= |t| {
        assert t[1] == x[0];
      }
    }
    ReplaceAllMiss(t, pat, rep);
    assert t[1..] == x && x + [] == x;
    ReplaceAllPrefix(x, [], pat, rep);
  }

  /** The three replacements before `&amp;` leave `p&amp;x` alone. */
  lemma AmpKeptBefore(p: string, x: string)
    requires '&' !in p && '&' !in x
    ensures var s := p + "&amp;" + x;
      ReplaceAll(ReplaceAll(ReplaceAll(s, "&nbsp;", " "), "&lt;", "<"), "&gt;", ">") == s
  {
    AmpUntouched(p, x, "&nbsp;", " ");
    AmpUntouched(p, x, "&lt;", "<");
    AmpUntouched(p, x, "&gt;", ">");
  }

  /** The `&amp;` replacement turns `p&amp;x` into `p&x`. */
  lemma AmpDecoded(p: string, x: string)
    requires '&' !in p && '&' !in x
    ensures ReplaceAll(p + "&amp;" + x, "&amp;", "&") == p + "&" + x
  {
    var t := "&amp;" + x;
    assert p + "&amp;" + x == p + t;
    ReplaceAllPrefix(p, t, "&amp;", "&");
    ReplaceAllHit(x, "&amp;", "&");
    AmpFree(x, "&amp;", "&");
    assert p + ("&" + x) == p + "&" + x;
  }

  /** The two replacements after `&amp;` leave `p&x` alone when `x` does not continue an entity. */
  lemma AmpDecodedKept(p: string, x: string)
    requires '&' !in p && '&' !in x && (x == [] || (x[0] != 'q' && x[0] != '#'))
    ensures var d := p + "&" + x;
      ReplaceAll(ReplaceAll(d, "&quot;", "\""), "&#39;", "'") == d
  {
    AmpDecodedUntouched(p, x, "&quot;", "\"");
    AmpDecodedUntouched(p, x, "&#39;", "'");
  }

  /**
   * `&amp;` is decoded after `&lt;`, `&gt;` and `&nbsp;`, and only once:
   * `p&amp;x` becomes `p&x` even when `x` then reads as another entity.
   */
  lemma DecodeEntitiesAmp(p: string, x: string)
    requires '&' !in p && '&' !in x && (x == [] || (x[0] != 'q' && x[0] != '#'))
    ensures DecodeEntities(p + "&amp;" + x) == p + "&" + x
  {
    var s := p + "&amp;" + x;
    AmpKeptBefore(p, x);
    AmpDecoded(p, x);
    AmpDecodedKept(p, x);
    DecodeEntitiesIs(s);
  }

  /** Plain text after `&amp;`: no `&`, no `<`, no whitespace. */
  predicate PlainAfterAmp(x: string) {
    forall i :: 0 <= i < |x| ==> x[i] != '&' && x[i] != '<' && !IsSpace(x[i])
  }

  lemma AmpTextNoMarkup(x: string)
    requires PlainAfterAmp(x)
    ensures StripMarkup("&amp;" + x) == "&amp;" + x
  {
    var s := "&amp;" + x;
    assert '<' !in s by {
      forall i | 0 <= i < |s| ensures s[i] != '<' {
        if i >= 5 { assert s[i] == x[i - 5]; }
      }
    }
    StripMarkupPlain(s);
  }

  lemma AmpTextDecoded(x: string)
    requires PlainAfterAmp(x) && (x == [] || (x[0] != 'q' && x[0] != '#'))
    ensures DecodeEntities("&amp;" + x) == "&" + x
  {
    assert '&' !in x by {
      forall i | 0 <= i < |x| ensures x[i] != '&' { }
    }
    assert "&amp;" + x == [] + "&amp;" + x;
    DecodeEntitiesAmp([], x);
    assert [] + "&" + x == "&" + x;
  }

  lemma AmpTextSpaced(x: string)
    requires PlainAfterAmp(x)
    ensures CollapseSpace("&" + x) == "&" + x && Strip("&" + x) == "&" + x
  {
    var d := "&" + x;
    forall i | 0 <= i < |d| ensures !IsSpace(d[i]) {
      if i >= 1 { assert d[i] == x[i - 1]; }
    }
    CollapseSpacePlain(d);
    StripUnchanged(d);
  }

  /**
   * `&amp;` followed by plain text cleans to `&` and that text, even when the
   * text then reads as another entity: the decoded `&` is not decoded again.
   */
  lemma CleanHtmlAmp(x: string)
    requires PlainAfterAmp(x)
    requires x == [] || (x[0] != 'q' && x[0] != '#')
    ensures CleanHtml("&amp;" + x) == "&" + x
  {
    AmpTextNoMarkup(x);
    AmpTextDecoded(x);
    AmpTextSpaced(x);
    CleanHtmlIs("&amp;" + x);
  }

  /** `"&amp;lt;"` cleans to `"&lt;"`, not to `"<"`. */
  lemma CleanHtmlAmpLt(s: string)
    requires s == "&amp;lt;"
    ensures CleanHtml(s) == "&lt;"
  {
    var x := "lt;";
    assert s == "&amp;" + x;
    CleanHtmlAmp(x);
    assert "&" + x == "&lt;";
  }

  /** A `<` followed by a name that cannot begin the block's tag is kept. */
  lemma KeepsTag(name: string, rest: string, open: string, close: string)
    requires |open| >= 2 && open[0] == '<'
    requires |name| > 0 && LowerAscii(name[0]) != LowerAscii(open[1]) && '<' !in name
    ensures RemoveBlocks("<" + name + rest, open, close) == "<" + name + RemoveBlocks(rest, open, close)
  {
    var s := "<" + name + rest;
    assert s[1] == name[0];
    RemoveBlocksSkip(s, open, close);
    assert s[1..] == name + rest;
    RemoveBlocksPlain(name, rest, open, close);
  }

  lemma KeepsTwoTags(head: string, u: string, open: string, close: string)
    requires |open| >= 2 && open[0] == '<'
    requires |head| > 0 && LowerAscii(head[0]) != LowerAscii(open[1]) && '<' !in head
    requires |u| > 0 && LowerAscii(u[0]) != LowerAscii(open[1]) && '<' !in u
    ensures RemoveBlocks("<" + head + ("<" + u), open, close) == "<" + head + ("<" + u)
  {
    KeepsTag(head, "<" + u, open, close);
    KeepsTag(u, [], open, close);
    assert "<" + u + [] == "<" + u;
  }

  /** `</name>&amp;x`. */
  function ClosingSample(name: string, x: string): string {
    "<" + ("/" + name) + ">" + ("&amp;" + x)
  }

  /** `<name>p</name>&amp;x`. */
  function TaggedSample(name: string, p: string, x: string): string {
    "<" + name + ">" + (p + ClosingSample(name, x))
  }

  lemma TaggedSampleShape(name: string, p: string, x: string)
    ensures TaggedSample(name, p, x) == "<" + (name + ">" + p) + ("<" + ("/" + name + ">" + "&amp;" + x))
  {
  }

  /** `<name>p</name>&amp;x` holds no block starting `open` when `name` cannot begin its tag. */
  lemma KeepsTaggedSample(name: string, p: string, x: string, open: string, close: string)
    requires |open| >= 2 && open[0] == '<' && LowerAscii('/') != LowerAscii(open[1])
    requires |name| > 0 && LowerAscii(name[0]) != LowerAscii(open[1]) && '<' !in name && '<' !in p && '<' !in x
    ensures RemoveBlocks(TaggedSample(name, p, x), open, close) == TaggedSample(name, p, x)
  {
    var u := "/" + name + ">" + "&amp;" + x;
    var head := name + ">" + p;
    assert '<' !in head && '<' !in u;
    assert head[0] == name[0];
    TaggedSampleShape(name, p, x);
    KeepsTwoTags(head, u, open, close);
  }

  lemma TagsAround(name: string, p: string, closing: string)
    requires |name| > 0 && '>' !in name && '<' !in p
    ensures RemoveTags("<" + name + ">" + (p + closing)) == p + RemoveTags(closing)
  {
    RemoveTagsTag(name, p + closing);
    RemoveTagsPlain(p, closing);
  }

  lemma TagThenText(name: string, tail: string)
    requires |name| > 0 && '>' !in name && '<' !in tail
    ensures RemoveTags("<" + name + ">" + tail) == tail
  {
    RemoveTagsTag(name, tail);
    assert tail + [] == tail;
    RemoveTagsPlain(tail, []);
  }

  /** `<name>p</name>&amp;x` loses its two tags. */
  lemma TaggedSampleTags(name: string, p: string, x: string)
    requires |name| > 0 && '>' !in name && '<' !in p && '<' !in x
    ensures RemoveTags(TaggedSample(name, p, x)) == p + "&amp;" + x
  {
    assert '<' !in "&amp;" + x && '>' !in "/" + name;
    TagThenText("/" + name, "&amp;" + x);
    TagsAround(name, p, ClosingSample(name, x));
  }

  lemma ScriptBlockGone(body: string, rest: string)
    requires '<' !in body
    ensures RemoveBlocks("<script>" + body + "</script>" + rest, "<script", "</script>")
         == RemoveBlocks(rest, "<script", "</script>")
  {
    assert "<script" + ">" == "<script>";
    RemoveBlocksBlock("<script", body, "</script>", rest);
  }

  lemma StripMarkupSample(body: string, name: string, p: string, x: string)
    requires '<' !in body
    requires |name| > 0 && LowerAscii(name[0]) != 's' && '<' !in name && '>' !in name && '<' !in p && '<' !in x
    ensures StripMarkup("<script>" + body + "</script>" + TaggedSample(name, p, x)) == p + "&amp;" + x
  {
    var rest := TaggedSample(name, p, x);
    StripMarkupIs("<script>" + body + "</script>" + rest);
    ScriptBlockGone(body, rest);
    SampleKeptByBlocks(name, p, x);
    TaggedSampleTags(name, p, x);
  }

  lemma SampleKeptByBlocks(name: string, p: string, x: string)
    requires |name| > 0 && LowerAscii(name[0]) != 's' && '<' !in name && '<' !in p && '<' !in x
    ensures RemoveBlocks(TaggedSample(name, p, x), "<script", "</script>") == TaggedSample(name, p, x)
    ensures RemoveBlocks(TaggedSample(name, p, x), "<style", "</style>") == TaggedSample(name, p, x)
  {
    var sc, st := "<script", "<style";
    assert sc[0] == '<' && sc[1] == 's' && st[0] == '<' && st[1] == 's';
    assert LowerAscii('/') != LowerAscii('s') && LowerAscii('s') == 's';
    KeepsTaggedSample(name, p, x, sc, "</script>");
    KeepsTaggedSample(name, p, x, st, "</style>");
  }

  lemma NoSpaceJoin(p: string, x: string)
    requires forall i :: 0 <= i < |p| ==> !IsSpace(p[i])
    requires forall i :: 0 <= i < |x| ==> !IsSpace(x[i])
    ensures forall i :: 0 <= i < |p + "&" + x| ==> !IsSpace((p + "&" + x)[i])
  {
    var d := p + "&" + x;
    forall i | 0 <= i < |d| ensures !IsSpace(d[i]) {
      if i < |p| {
        assert d[i] == p[i];
      } else if i > |p| {
        assert d[i] == x[i - |p| - 1];
      }
    }
  }

  /**
   * A script block is dropped with its contents, a tag pair around text is
   * removed and `&amp;` decoded; `<script>x</script><b>Hi</b>&amp;there`
   * is the instance `body = x`, `name = b`, `p = Hi`, `x = there`, and
   * cleans to `Hi&there`.
   */
  lemma CleanHtmlScriptAndTags(body: string, name: string, p: string, x: string)
    requires '<' !in body
    requires |name| > 0 && LowerAscii(name[0]) != 's' && '<' !in name && '>' !in name
    requires forall i :: 0 <= i < |p| ==> p[i] != '<' && p[i] != '&' && !IsSpace(p[i])
    requires forall i :: 0 <= i < |x| ==> x[i] != '<' && x[i] != '&' && !IsSpace(x[i])
    requires x == [] || (x[0] != 'q' && x[0] != '#')
    ensures CleanHtml("<script>" + body + "</script>" + TaggedSample(name, p, x)) == p + "&" + x
  {
    CleanHtmlIs("<script>" + body + "</script>" + TaggedSample(name, p, x));
    StripMarkupSample(body, name, p, x);
    DecodeEntitiesAmp(p, x);
    NoSpaceJoin(p, x);
    CollapseSpacePlain(p + "&" + x);
    StripUnchanged(p + "&" + x);
  }

  // ---------------------------------------------------------------------
  // Video ids
  // ---------------------------------------------------------------------

  /**
   * `extract_video_id`: the stripped text when it is all digits, else the
   * digits after `watch?v=`, else after `/video/`, else the first run of
   * four or more digits; `None` otherwise.
   */
  function ExtractVideoId(urlOrId: string): (r: Option<string>)
    ensures r.Some? ==> IsDigitString(r.value)
  {
    if urlOrId == [] then None
    else
      var s := Strip(urlOrId);
      if IsDigitString(s) then Some(s)
      else if DigitsAfter(s, "watch?v=").Some? then DigitsAfter(s, "watch?v=")
      else if DigitsAfter(s, "/video/").Some? then DigitsAfter(s, "/video/")
      else LongDigitRun(s)
  }

  /** An id padded with whitespace is returned without it. */
  lemma ExtractVideoIdOfId(id: string, pad: string, pad2: string)
    requires IsDigitString(id)
    requires forall i :: 0 <= i < |pad| ==> IsSpace(pad[i])
    requires forall i :: 0 <= i < |pad2| ==> IsSpace(pad2[i])
    ensures ExtractVideoId(pad + id + pad2) == Some(id)
  {
    var s := pad + id + pad2;
    StripPadded(pad, id, pad2);
  }

  lemma StripPadded(pad: string, core: string, pad2: string)
    requires forall i :: 0 <= i < |pad| ==> IsSpace(pad[i])
    requires forall i :: 0 <= i < |pad2| ==> IsSpace(pad2[i])
    requires core != [] && !IsSpace(core[0]) && !IsSpace(core[|core| - 1])
    ensures Strip(pad + core + pad2) == core
  {
    TrimLeftPadded(pad, core + pad2);
    assert pad + core + pad2 == pad + (core + pad2);
    TrimRightPadded(core, pad2);
  }

  lemma TrimLeftPadded(pad: string, s: string)
    requires forall i :: 0 <= i < |pad| ==> IsSpace(pad[i])
    requires s != [] && !IsSpace(s[0])
    ensures TrimLeft(pad + s) == s
  {
    var t := pad + s;
    forall i | 0 <= i < |pad| ensures SpaceAt(t, i) {
      assert t[i] == pad[i];
    }
    assert t[|pad|] == s[0];
    TrimLeftAt(t, |pad|);
    assert t[|pad|..] == s;
  }

  lemma TrimRightPadded(s: string, pad: string)
    requires forall i :: 0 <= i < |pad| ==> IsSpace(pad[i])
    requires s != [] && !IsSpace(s[|s| - 1])
    ensures TrimRight(s + pad) == s
  {
    var t := s + pad;
    forall i | |s| <= i < |t| ensures SpaceAt(t, i) {
      assert t[i] == pad[i - |s|];
    }
    assert t[|s| - 1] == s[|s| - 1];
    TrimRightAt(t, |s|);
    assert t[..|s|] == s;
  }

  /** A marker followed by digits yields those digits. */
  lemma DigitsAfterMarker(marker: string, id: string)
    requires |marker| > 0 && IsDigitString(id)
    ensures DigitsAfter(marker + id, marker) == Some(id)
  {
    var t := marker + id;
    assert StartsWith(t, marker);
    assert t[|marker|..] == id + "";
    LeadingDigitsOf(id, "");
  }

  /** The digits after `watch?v=` in a watch-page URL are its id. */
  lemma DigitsAfterWatch(id: string)
    requires IsDigitString(id)
    ensures DigitsAfter(VIDEO_URL_PREFIX + id, "watch?v=") == Some(id)
  {
    var host := "https://hanime1.me/";
    var marker := "watch?v=";
    assert VIDEO_URL_PREFIX + id == host + (marker + id);
    assert 'w' !in host;
    DigitsAfterSkip(host, marker + id, marker);
    DigitsAfterMarker(marker, id);
  }

  /** The id of a watch-page URL is recovered from it. */
  lemma ExtractVideoIdOfUrl(id: string)
    requires IsDigitString(id)
    ensures ExtractVideoId(VIDEO_URL_PREFIX + id) == Some(id)
  {
    var s := VIDEO_URL_PREFIX + id;
    assert s[0] == 'h' && s[|s| - 1] == id[|id| - 1];
    StripUnchanged(s);
    assert !IsDigit(s[0]);
    DigitsAfterWatch(id);
  }

  /** Empty input gives `None`. */
  lemma ExtractVideoIdEmpty()
    ensures ExtractVideoId("") == None
  {
  }

  /**
   * The result is `None` exactly when the input is empty, or its stripped
   * text is not all digits, has no `watch?v=` or `/video/` followed by a
   * digit, and has no four digits in a row.
   */
  lemma ExtractVideoIdNone(u: string)
    ensures ExtractVideoId(u) == None
        <==> u == [] || (var s := Strip(u);
                         && !IsDigitString(s)
                         && NoDigitsFollow(s, "watch?v=")
                         && NoDigitsFollow(s, "/video/")
                         && NoFourDigits(s))
  {
    if u != [] {
      var s := Strip(u);
      DigitsAfterNone(s, "watch?v=");
      DigitsAfterNone(s, "/video/");
      LongDigitRunNone(s);
    }
  }

  /** Text without a digit has no id. */
  lemma ExtractVideoIdNoDigit(u: string)
    requires !HasDigit(u)
    ensures ExtractVideoId(u) == None
  {
    if u != [] {
      var s := Strip(u);
      StripNoDigit(u);
      forall j | 0 <= j <= |s| ensures !DigitsFollow(s[j..], "watch?v=") && !DigitsFollow(s[j..], "/video/") {
        NoDigitAfter(s, j, "watch?v=");
        NoDigitAfter(s, j, "/video/");
      }
      forall j | 0 <= j <= |s| ensures !FourDigits(s[j..]) {
        if 4 <= |s| - j {
          assert s[j..][..4][0] == s[j];
        }
      }
      if s != [] {
        assert !IsDigit(s[0]);
      }
      ExtractVideoIdNone(u);
    }
  }

  lemma NoDigitAfter(s: string, j: nat, marker: string)
    requires !HasDigit(s) && j <= |s|
    ensures !DigitsFollow(s[j..], marker)
  {
    if |marker| < |s| - j {
      assert s[j..][|marker|] == s[j + |marker|];
    }
  }

  /** Text that is not all digits: the leftmost `watch?v=` followed by digits gives them. */
  lemma ExtractVideoIdWatch(u: string, i: nat)
    requires u != [] && !IsDigitString(Strip(u))
    requires FirstDigitsFollowAt(Strip(u), "watch?v=", i)
    ensures ExtractVideoId(u) == Some(LeadingDigits(Strip(u)[i + 8..]))
  {
    DigitsAfterAt(Strip(u), "watch?v=", i);
  }

  /** Only when no `watch?v=` is followed by a digit: the leftmost `/video/` followed by digits gives them. */
  lemma ExtractVideoIdVideoPath(u: string, i: nat)
    requires u != [] && !IsDigitString(Strip(u))
    requires NoDigitsFollow(Strip(u), "watch?v=")
    requires FirstDigitsFollowAt(Strip(u), "/video/", i)
    ensures ExtractVideoId(u) == Some(LeadingDigits(Strip(u)[i + 7..]))
  {
    DigitsAfterNone(Strip(u), "watch?v=");
    DigitsAfterAt(Strip(u), "/video/", i);
  }

  /** Only when neither marker is followed by a digit: the leftmost run of four or more digits, whole. */
  lemma ExtractVideoIdLongRun(u: string, i: nat)
    requires u != [] && !IsDigitString(Strip(u))
    requires NoDigitsFollow(Strip(u), "watch?v=") && NoDigitsFollow(Strip(u), "/video/")
    requires FirstFourDigitsAt(Strip(u), i)
    ensures ExtractVideoId(u) == Some(LeadingDigits(Strip(u)[i..]))
  {
    DigitsAfterNone(Strip(u), "watch?v=");
    DigitsAfterNone(Strip(u), "/video/");
    LongDigitRunAt(Strip(u), i);
  }

  /** A short number inside other text is not an id: `"ep 12"` gives `None`. */
  lemma ExtractVideoIdShortNumber()
    ensures ExtractVideoId("ep 12") == None
  {
    var s := "ep 12";
    StripUnchanged(s);
    assert !IsDigit(s[0]);
    ShortTextNoMarker(s);
    ShortNumberNoFourDigits();
    ExtractVideoIdNone(s);
  }

  /** Text shorter than both markers has neither marker followed by a digit. */
  lemma ShortTextNoMarker(s: string)
    requires |s| < 7
    ensures NoDigitsFollow(s, "watch?v=") && NoDigitsFollow(s, "/video/")
  {
    forall j | 0 <= j <= |s| ensures !DigitsFollow(s[j..], "watch?v=") && !DigitsFollow(s[j..], "/video/") {
      assert |s[j..]| < 7;
    }
  }

  lemma ShortNumberNoFourDigits()
    ensures NoFourDigits("ep 12")
  {
    var s := "ep 12";
    forall j | 0 <= j <= |s| ensures !FourDigits(s[j..]) {
      if j == 0 { assert !IsDigit(s[j..][..4][0]); }
      if j == 1 { assert !IsDigit(s[j..][..4][0]); }
    }
  }

  // ---------------------------------------------------------------------
  // Search URL
  // ---------------------------------------------------------------------

  /** The query parameters, in order: query, genre, sort unless "" or "latest", page above 1. */
  function SearchParams(query: string, genre: string, sort: string, page: int): (r: seq<string>)
    ensures |r| <= 4
    ensures r == [] <==> query == "" && genre == "" && (sort == "" || sort == "latest") && page <= 1
  {
    (if query != "" then ["query=" + query] else [])
    + (if genre != "" then ["genre=" + genre] else [])
    + (if sort != "" && sort != "latest" then ["sort=" + sort] else [])
    + (if page > 1 then ["page=" + IntToString(page)] else [])
  }

  /** `build_search_url`: the search page with the parameters joined by `&`, or the bare site. */
  function BuildSearchUrl(query: string, genre: string, sort: string, page: int): (r: string)
    ensures StartsWith(r, BASE_URL)
  {
    var params := SearchParams(query, genre, sort, page);
    if params == [] then BASE_URL else BASE_URL + "/search?" + Join(params, "&")
  }

  /** The bare site is produced exactly when every parameter is at its default. */
  lemma BuildSearchUrlBare(query: string, genre: string, sort: string, page: int)
    ensures BuildSearchUrl(query, genre, sort, page) == BASE_URL
        <==> query == "" && genre == "" && (sort == "" || sort == "latest") && page <= 1
  {
    var params := SearchParams(query, genre, sort, page);
    if params != [] {
      assert |BuildSearchUrl(query, genre, sort, page)| > |BASE_URL|;
    }
  }

  /** When no value contains `&`, splitting the query string gives back the parameters. */
  lemma BuildSearchUrlSplits(query: string, genre: string, sort: string, page: int)
    requires '&' !in query && '&' !in genre && '&' !in sort
    requires SearchParams(query, genre, sort, page) != []
    ensures var url := BuildSearchUrl(query, genre, sort, page);
      var head := BASE_URL + "/search?";
      StartsWith(url, head) && Split(url[|head|..], '&') == SearchParams(query, genre, sort, page)
  {
    var params := SearchParams(query, genre, sort, page);
    var p := if page > 1 then IntToString(page) else "";
    assert '&' !in p by {
      if page > 1 {
        assert IsDigitString(NatToString(page));
      }
    }
    forall i | 0 <= i < |params| ensures '&' !in params[i] {
    }
    SplitJoin(params, '&');
    var url := BuildSearchUrl(query, genre, sort, page);
    var head := BASE_URL + "/search?";
    assert url == head + Join(params, "&");
    assert url[|head|..] == Join(params, "&");
  }
}
