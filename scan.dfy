/**
 * Stand-ins for the regular expressions of the scraper.
 *
 * A pattern whose only job is to locate a value in a page is abstracted as a
 * `Matcher` (the text of the group the source reads, or `None`), and a
 * priority list of them as a first-match chain. The patterns whose exact
 * behaviour the properties depend on are written out here as scanners that
 * follow Python's leftmost, non-overlapping search: block and tag removal
 * in `clean_html`, the `\s+` collapse, the clock token, and the digit runs
 * after a fixed marker.
 */
module Scan {
  import opened Wrappers
  import opened Text

  // ---------------------------------------------------------------------
  // First-match chains
  // ---------------------------------------------------------------------

  /** A pattern applied to a page: the captured text of its first match. */
  type Matcher = string -> Option<string>

  /** The index of the first pattern in `ms` that matches `s`, or `|ms|`. */
  function FirstHit(ms: seq<Matcher>, s: string): (k: nat)
    ensures k <= |ms|
    ensures forall j :: 0 <= j < k ==> ms[j](s).None?
    ensures k < |ms| ==> ms[k](s).Some?
  {
    if ms == [] then 0
    else if ms[0](s).Some? then 0
    else 1 + FirstHit(ms[1..], s)
  }

  /** Try the patterns in order; the first that matches wins. */
  function FirstMatch(ms: seq<Matcher>, s: string): Option<string> {
    var k := FirstHit(ms, s);
    if k < |ms| then ms[k](s) else None
  }

  /** A chain yields nothing exactly when none of its patterns matches. */
  lemma FirstMatchNone(ms: seq<Matcher>, s: string)
    ensures FirstMatch(ms, s).None? <==> forall j :: 0 <= j < |ms| ==> ms[j](s).None?
  {
  }

  /** A chain's value is that of its first pattern when that one matches. */
  lemma FirstMatchHead(ms: seq<Matcher>, s: string)
    requires |ms| > 0
    ensures FirstMatch(ms, s) == if ms[0](s).Some? then ms[0](s) else FirstMatch(ms[1..], s)
  {
    if ms[0](s).None? {
      assert FirstHit(ms, s) == 1 + FirstHit(ms[1..], s);
    }
  }

  /** Two chains tried one after the other form one chain. */
  lemma {:induction false} FirstMatchAppend(a: seq<Matcher>, b: seq<Matcher>, s: string)
    ensures FirstMatch(a + b, s) == if FirstMatch(a, s).Some? then FirstMatch(a, s) else FirstMatch(b, s)
  {
    if a == [] {
      assert a + b == b;
      FirstMatchNone(a, s);
    } else {
      FirstMatchHead(a + b, s);
      FirstMatchHead(a, s);
      assert (a + b)[0] == a[0] && (a + b)[1..] == a[1..] + b;
      FirstMatchAppend(a[1..], b, s);
    }
  }

  // ---------------------------------------------------------------------
  // Searching
  // ---------------------------------------------------------------------

  /** The first index at or after `from` holding `c`, or `|s|`. */
  function IndexOf(s: string, c: char, from: nat): (k: nat)
    requires from <= |s|
    ensures from <= k <= |s|
    ensures k < |s| ==> s[k] == c
    ensures forall j :: from <= j < k ==> s[j] != c
    decreases |s| - from
  {
    if from == |s| || s[from] == c then from else IndexOf(s, c, from + 1)
  }

  /** The first index at or after `from` where `pat` starts, ignoring ASCII case. */
  function FindIgnoreCase(s: string, pat: string, from: nat): (k: Option<nat>)
    requires from <= |s|
    ensures k.Some? ==> from <= k.value <= |s| && StartsWithIgnoreCase(s[k.value..], pat)
    decreases |s| - from
  {
    if StartsWithIgnoreCase(s[from..], pat) then Some(from)
    else if from == |s| then None
    else FindIgnoreCase(s, pat, from + 1)
  }

  // ---------------------------------------------------------------------
  // re.sub(r'<open[^>]*>.*?close', '', s, flags=re.IGNORECASE | re.DOTALL)
  // ---------------------------------------------------------------------

  /**
   * When a block `<open ...> ... close` starts at the beginning of `s`, the
   * length of the shortest such block: the opening tag runs to the first
   * `>`, and the body to the first following `close`.
   */
  function BlockAt(s: string, open: string, close: string): (n: Option<nat>)
    requires |open| > 0
    ensures n.Some? ==> |open| < n.value <= |s|
  {
    if !StartsWithIgnoreCase(s, open) then None
    else
      var gt := IndexOf(s, '>', |open|);
      if gt == |s| then None
      else
        match FindIgnoreCase(s, close, gt + 1)
        case None => None
        case Some(c) => Some(c + |close|)
  }

  /** Delete every block `<open ...> ... close`, scanning left to right. */
  function RemoveBlocks(s: string, open: string, close: string): string
    requires |open| > 0
    decreases |s|
  {
    if s == [] then []
    else
      match BlockAt(s, open, close)
      case Some(n) => RemoveBlocks(s[n..], open, close)
      case None => [s[0]] + RemoveBlocks(s[1..], open, close)
  }

  /** ASCII lower-casing leaves `<` alone and maps nothing else to it. */
  lemma LowerLt(c: char)
    ensures LowerAscii(c) == '<' <==> c == '<'
  {
  }

  /** Text without `<` cannot start a block and is kept. */
  lemma {:induction false} RemoveBlocksPlain(a: string, b: string, open: string, close: string)
    requires |open| > 0 && open[0] == '<' && '<' !in a
    ensures RemoveBlocks(a + b, open, close) == a + RemoveBlocks(b, open, close)
  {
    if a == [] {
      assert a + b == b;
    } else {
      var s := a + b;
      assert s[0] == a[0] && s[1..] == a[1..] + b;
      RemoveBlocksKeep(s, open, close);
      RemoveBlocksPlain(a[1..], b, open, close);
    }
  }

  /** Text that does not start with `<` keeps its first character. */
  lemma RemoveBlocksKeep(s: string, open: string, close: string)
    requires |open| > 0 && open[0] == '<' && s != [] && s[0] != '<'
    ensures RemoveBlocks(s, open, close) == [s[0]] + RemoveBlocks(s[1..], open, close)
  {
    LowerLt(s[0]);
    assert !StartsWithIgnoreCase(s, open);
  }

  /** A `<` whose next letter differs from the block's tag name is kept. */
  lemma RemoveBlocksSkip(s: string, open: string, close: string)
    requires |open| >= 2 && open[0] == '<'
    requires |s| >= 2 && LowerAscii(s[1]) != LowerAscii(open[1])
    ensures RemoveBlocks(s, open, close) == [s[0]] + RemoveBlocks(s[1..], open, close)
  {
    assert !StartsWithIgnoreCase(s, open);
  }

  /** The search for the closing text finds its first occurrence. */
  lemma {:induction false} FindIgnoreCaseAt(s: string, pat: string, from: nat, k: nat)
    requires from <= k <= |s| && StartsWithIgnoreCase(s[k..], pat)
    requires forall j :: from <= j < k ==> !StartsWithIgnoreCase(s[j..], pat)
    ensures FindIgnoreCase(s, pat, from) == Some(k)
    decreases k - from
  {
    if from < k {
      FindIgnoreCaseAt(s, pat, from + 1, k);
    }
  }

  /** The opening tag `open>` ends at its own `>`. */
  lemma OpenTagEnd(s: string, open: string)
    requires |open| < |s| && s[|open|] == '>'
    ensures IndexOf(s, '>', |open|) == |open|
  {
  }

  lemma SliceInside(s: string, from: nat, body: string, close: string)
    requires from + |body| + |close| <= |s| && s[from..from + |body| + |close|] == body + close
    ensures s[from + |body|..][..|close|] == close
  {
    var w := s[from..from + |body| + |close|];
    assert w[|body|..] == close;
    assert w[|body|..] == s[from + |body|..from + |body| + |close|];
  }

  /** The first `close` after a body without `<` is the one right after it. */
  lemma CloseAfterBody(s: string, body: string, close: string, from: nat)
    requires '<' !in body && |close| > 0 && close[0] == '<'
    requires from + |body| + |close| <= |s| && s[from..from + |body| + |close|] == body + close
    ensures FindIgnoreCase(s, close, from) == Some(from + |body|)
  {
    var k := from + |body|;
    SliceInside(s, from, body, close);
    forall j | from <= j < k ensures !StartsWithIgnoreCase(s[j..], close) {
      assert (body + close)[j - from] == body[j - from];
      assert s[from..from + |body| + |close|][j - from] == s[j];
      assert s[j..][0] == s[j] == body[j - from];
      LowerLt(s[j]);
    }
    FindIgnoreCaseAt(s, close, from, k);
  }

  /** A block `open>body close` at the start of `s` is found, up to the end of `close`. */
  lemma BlockAtWhole(s: string, open: string, body: string, close: string)
    requires |open| > 0 && '>' !in open && '<' !in body && |close| > 0 && close[0] == '<'
    requires |open| + 1 + |body| + |close| <= |s|
    requires StartsWithIgnoreCase(s, open) && s[|open|] == '>'
    requires s[|open| + 1..|open| + 1 + |body| + |close|] == body + close
    ensures BlockAt(s, open, close) == Some(|open| + 1 + |body| + |close|)
  {
    OpenTagEnd(s, open);
    CloseAfterBody(s, body, close, |open| + 1);
  }

  /** A whole block `open>body close` at the start is deleted. */
  lemma RemoveBlocksBlock(open: string, body: string, close: string, rest: string)
    requires |open| > 0 && '>' !in open && '<' !in body && |close| > 0 && close[0] == '<'
    ensures RemoveBlocks(open + ">" + body + close + rest, open, close) == RemoveBlocks(rest, open, close)
  {
    var tail := body + close + rest;
    var s := open + (">" + tail);
    assert open + ">" + body + close + rest == s;
    var n := |open| + 1 + |body| + |close|;
    assert StartsWithIgnoreCase(s, open) by {
      StartsWithIgnoreCaseSelf(open, ">" + tail);
    }
    assert s[|open|] == '>';
    assert s[|open| + 1..n] == body + close by {
      assert s[|open| + 1..] == tail;
    }
    BlockAtWhole(s, open, body, close);
    assert s[n..] == rest by {
      assert s[|open| + 1..] == tail;
    }
  }

  // ---------------------------------------------------------------------
  // re.sub(r'<[^>]+>', '', s)
  // ---------------------------------------------------------------------

  /** When a tag `<x...>` (at least one character inside) starts `s`, its length. */
  function TagAt(s: string): (n: Option<nat>)
    ensures n.Some? ==> 2 < n.value <= |s|
  {
    if |s| < 3 || s[0] != '<' || s[1] == '>' then None
    else
      var gt := IndexOf(s, '>', 2);
      if gt == |s| then None else Some(gt + 1)
  }

  function RemoveTags(s: string): string
    decreases |s|
  {
    if s == [] then []
    else
      match TagAt(s)
      case Some(n) => RemoveTags(s[n..])
      case None => [s[0]] + RemoveTags(s[1..])
  }

  /** Text without `<` is kept. */
  lemma {:induction false} RemoveTagsPlain(a: string, b: string)
    requires '<' !in a
    ensures RemoveTags(a + b) == a + RemoveTags(b)
  {
    if a == [] {
      assert a + b == b;
    } else {
      var s := a + b;
      assert s[0] == a[0] && s[1..] == a[1..] + b;
      RemoveTagsPlain(a[1..], b);
    }
  }

  /** A tag `<name>` at the start is deleted. */
  lemma RemoveTagsTag(name: string, rest: string)
    requires |name| > 0 && '>' !in name
    ensures RemoveTags("<" + name + ">" + rest) == RemoveTags(rest)
  {
    var s := "<" + name + ">" + rest;
    assert s[1] == name[0];
    forall j | 2 <= j < 1 + |name| ensures s[j] != '>' {
      assert s[j] == name[j - 1];
    }
    assert s[1 + |name|] == '>';
    assert IndexOf(s, '>', 2) == 1 + |name|;
    assert s[2 + |name|..] == rest;
  }

  // ---------------------------------------------------------------------
  // re.sub(r'\s+', ' ', s)
  // ---------------------------------------------------------------------

  /** The characters at `i` and `i + 1` are both whitespace. */
  predicate SpacePair(s: string, i: int)
    requires 0 <= i < |s| - 1
  {
    IsSpace(s[i]) && IsSpace(s[i + 1])
  }

  /** No two neighbouring characters are both whitespace. */
  predicate NoDoubleSpace(s: string) {
    forall i :: 0 <= i < |s| - 1 ==> !SpacePair(s, i)
  }

  /** A character put in front keeps the text free of double whitespace unless both are whitespace. */
  lemma ConsNoDoubleSpace(c: char, t: string)
    requires NoDoubleSpace(t)
    requires t != [] && IsSpace(c) ==> !IsSpace(t[0])
    ensures NoDoubleSpace([c] + t)
  {
    var s := [c] + t;
    forall i | 0 <= i < |s| - 1 ensures !SpacePair(s, i) {
      if i > 0 {
        assert !SpacePair(t, i - 1);
      }
    }
  }

  /** The only whitespace character is the plain space. */
  predicate PlainSpaces(s: string) {
    forall i :: 0 <= i < |s| && IsSpace(s[i]) ==> s[i] == ' '
  }

  /** Every run of whitespace becomes one space. */
  function CollapseSpace(s: string): (r: string)
    ensures r == [] <==> s == []
    ensures r != [] ==> (IsSpace(r[0]) <==> IsSpace(s[0]))
    ensures NoDoubleSpace(r) && PlainSpaces(r)
    decreases |s|
  {
    if s == [] then []
    else if IsSpace(s[0]) then
      var rest := CollapseSpace(TrimLeft(s));
      ConsNoDoubleSpace(' ', rest);
      [' '] + rest
    else
      var rest := CollapseSpace(s[1..]);
      ConsNoDoubleSpace(s[0], rest);
      [s[0]] + rest
  }

  /** Text without whitespace is kept. */
  lemma {:induction false} CollapseSpacePlain(s: string)
    requires forall i :: 0 <= i < |s| ==> !IsSpace(s[i])
    ensures CollapseSpace(s) == s
  {
    if s != [] {
      CollapseSpacePlain(s[1..]);
      assert [s[0]] + s[1..] == s;
    }
  }

  /** A slice of text without double whitespace has none either. */
  lemma SliceKeepsNoDoubleSpace(s: string, a: nat, b: nat)
    requires a <= b <= |s| && NoDoubleSpace(s)
    ensures NoDoubleSpace(s[a..b])
  {
    forall i | 0 <= i < b - a - 1 ensures !SpacePair(s[a..b], i) {
      assert !SpacePair(s, a + i);
      assert s[a..b][i] == s[a + i] && s[a..b][i + 1] == s[a + i + 1];
    }
  }

  /** Stripping text without double whitespace keeps it free of double whitespace. */
  lemma StripKeepsNoDoubleSpace(s: string)
    requires NoDoubleSpace(s) && PlainSpaces(s)
    ensures NoDoubleSpace(Strip(s)) && PlainSpaces(Strip(s))
  {
    var l := TrimLeft(s);
    var r := TrimRight(l);
    var k := |s| - |l|;
    assert r == s[k..k + |r|];
    SliceKeepsNoDoubleSpace(s, k, k + |r|);
    forall i | 0 <= i < |r| && IsSpace(r[i]) ensures r[i] == ' ' {
      assert r[i] == s[k + i];
    }
  }

  // ---------------------------------------------------------------------
  // Leading digit runs and digits after a marker
  // ---------------------------------------------------------------------

  /** The longest prefix of digits. */
  function LeadingDigits(s: string): (d: string)
    ensures IsDigits(d) && StartsWith(s, d)
    ensures |d| < |s| ==> !IsDigit(s[|d|])
  {
    if s != [] && IsDigit(s[0]) then [s[0]] + LeadingDigits(s[1..]) else ""
  }

  /** A digit string followed by the end or by a non-digit is its own leading run. */
  lemma {:induction false} LeadingDigitsOf(d: string, rest: string)
    requires IsDigits(d)
    requires rest == [] || !IsDigit(rest[0])
    ensures LeadingDigits(d + rest) == d
  {
    if d != [] {
      assert (d + rest)[1..] == d[1..] + rest;
      LeadingDigitsOf(d[1..], rest);
    }
  }

  /**
   * A match of `marker(\d+)` (followed by `"` when `quoted`) at the start of
   * `s`: the digits and the length of the whole match.
   */
  function IdAt(s: string, marker: string, ignoreCase: bool, quoted: bool): (m: Option<(string, nat)>)
    ensures m.Some? ==> IsDigitString(m.value.0) && 0 < m.value.1 <= |s|
  {
    if !(if ignoreCase then StartsWithIgnoreCase(s, marker) else StartsWith(s, marker)) then None
    else
      var d := LeadingDigits(s[|marker|..]);
      var end := |marker| + |d|;
      if d == "" then None
      else if !quoted then Some((d, end))
      else if end < |s| && s[end] == '"' then Some((d, end + 1))
      else None
  }

  /** `[m.group(1) for m in re.finditer(marker + r'(\d+)' ...)]`. */
  function FindIds(s: string, marker: string, ignoreCase: bool, quoted: bool): (ids: seq<string>)
    ensures forall i :: 0 <= i < |ids| ==> IsDigitString(ids[i])
    decreases |s|
  {
    if s == [] then []
    else
      match IdAt(s, marker, ignoreCase, quoted)
      case Some(m) => [m.0] + FindIds(s[m.1..], marker, ignoreCase, quoted)
      case None => FindIds(s[1..], marker, ignoreCase, quoted)
  }

  /** `re.search(marker + r'(\d+)', s)`: the digits of the leftmost match (case-sensitive). */
  function DigitsAfter(s: string, marker: string): (d: Option<string>)
    ensures d.Some? ==> IsDigitString(d.value)
    decreases |s|
  {
    if s == [] then None
    else
      match IdAt(s, marker, false, false)
      case Some(m) => Some(m.0)
      case None => DigitsAfter(s[1..], marker)
  }

  /** `marker` begins `t` and a digit follows it: `marker(\d+)` matches at the start of `t`. */
  predicate DigitsFollow(t: string, marker: string) {
    StartsWith(t, marker) && |marker| < |t| && IsDigit(t[|marker|])
  }

  /** `marker(\d+)` matches at `i` of `s` and at no earlier position. */
  predicate FirstDigitsFollowAt(s: string, marker: string, i: nat) {
    && i <= |s| && DigitsFollow(s[i..], marker)
    && forall j :: 0 <= j < i ==> !DigitsFollow(s[j..], marker)
  }

  /** `marker(\d+)` matches nowhere in `s`. */
  predicate NoDigitsFollow(s: string, marker: string) {
    forall j :: 0 <= j <= |s| ==> !DigitsFollow(s[j..], marker)
  }

  /** The case-sensitive, unquoted match at the start is the digits after the marker. */
  lemma IdAtPlain(t: string, marker: string)
    ensures IdAt(t, marker, false, false).Some? <==> DigitsFollow(t, marker)
    ensures IdAt(t, marker, false, false).Some? ==> IdAt(t, marker, false, false).value.0 == LeadingDigits(t[|marker|..])
  {
    if StartsWith(t, marker) && |marker| < |t| {
      assert t[|marker|..][0] == t[|marker|];
    }
  }

  /** The first position from `from` on where `marker(\d+)` matches, or `|s|` when there is none. */
  function FirstDigitsFollow(s: string, marker: string, from: nat): (i: nat)
    requires from <= |s|
    ensures from <= i <= |s|
    ensures forall j :: from <= j < i ==> !DigitsFollow(s[j..], marker)
    ensures i < |s| ==> DigitsFollow(s[i..], marker) && i + |marker| < |s|
    decreases |s| - from
  {
    if from == |s| || DigitsFollow(s[from..], marker) then from
    else FirstDigitsFollow(s, marker, from + 1)
  }

  /** One step of the search: a match here, or the search from the next character. */
  lemma DigitsAfterStep(t: string, marker: string)
    requires t != []
    ensures DigitsAfter(t, marker)
         == if DigitsFollow(t, marker) then Some(LeadingDigits(t[|marker|..])) else DigitsAfter(t[1..], marker)
  {
    IdAtPlain(t, marker);
  }

  /** From `from`, the search passes the positions without a match and stops at the match at `i`. */
  lemma {:induction false} DigitsAfterFromAt(s: string, marker: string, from: nat, i: nat)
    requires from <= i <= |s| && DigitsFollow(s[i..], marker)
    requires forall j :: from <= j < i ==> !DigitsFollow(s[j..], marker)
    ensures DigitsAfter(s[from..], marker) == Some(LeadingDigits(s[i + |marker|..]))
    decreases i - from
  {
    var t := s[from..];
    DigitsAfterStep(t, marker);
    if from == i {
      assert t[|marker|..] == s[i + |marker|..];
    } else {
      assert !DigitsFollow(t, marker);
      assert t[1..] == s[from + 1..];
      DigitsAfterFromAt(s, marker, from + 1, i);
    }
  }

  /** From `from`, a search past positions without a match finds nothing. */
  lemma {:induction false} DigitsAfterFromNone(s: string, marker: string, from: nat)
    requires from <= |s|
    requires forall j :: from <= j <= |s| ==> !DigitsFollow(s[j..], marker)
    ensures DigitsAfter(s[from..], marker) == None
    decreases |s| - from
  {
    if from < |s| {
      var t := s[from..];
      DigitsAfterStep(t, marker);
      assert !DigitsFollow(t, marker);
      assert t[1..] == s[from + 1..];
      DigitsAfterFromNone(s, marker, from + 1);
    }
  }

  /** The leftmost match decides: `re.search` returns its digits. */
  lemma DigitsAfterAt(s: string, marker: string, i: nat)
    requires FirstDigitsFollowAt(s, marker, i)
    ensures DigitsAfter(s, marker) == Some(LeadingDigits(s[i + |marker|..]))
  {
    DigitsAfterFromAt(s, marker, 0, i);
    assert s[0..] == s;
  }

  /** The search finds nothing exactly when the marker is nowhere followed by a digit. */
  lemma DigitsAfterNone(s: string, marker: string)
    ensures DigitsAfter(s, marker) == None <==> NoDigitsFollow(s, marker)
  {
    assert s[0..] == s;
    var k := FirstDigitsFollow(s, marker, 0);
    if k < |s| {
      DigitsAfterFromAt(s, marker, 0, k);
    } else {
      DigitsAfterFromNone(s, marker, 0);
    }
  }

  /** Text that cannot begin the marker can be skipped over. */
  lemma {:induction false} DigitsAfterSkip(a: string, b: string, marker: string)
    requires |marker| > 0 && marker[0] !in a
    ensures DigitsAfter(a + b, marker) == DigitsAfter(b, marker)
  {
    if a == [] {
      assert a + b == b;
    } else {
      assert !StartsWith(a + b, marker) by {
        if |marker| <= |a + b| {
          assert (a + b)[..|marker|][0] == a[0];
        }
      }
      assert (a + b)[1..] == a[1..] + b;
      DigitsAfterSkip(a[1..], b, marker);
    }
  }

  /** `re.search(r'(\d{4,})', s)`: the first run of at least four digits. */
  function LongDigitRun(s: string): (d: Option<string>)
    ensures d.Some? ==> IsDigitString(d.value) && |d.value| >= 4
    decreases |s|
  {
    if s == [] then None
    else if |LeadingDigits(s)| >= 4 then Some(LeadingDigits(s))
    else LongDigitRun(s[1..])
  }

  /** Four digits begin `t`: `\d{4,}` matches at the start of `t`. */
  predicate FourDigits(t: string) {
    4 <= |t| && IsDigits(t[..4])
  }

  /** `\d{4,}` matches at `i` of `s` and at no earlier position. */
  predicate FirstFourDigitsAt(s: string, i: nat) {
    i <= |s| && FourDigits(s[i..]) && forall j :: 0 <= j < i ==> !FourDigits(s[j..])
  }

  /** No four digits in a row anywhere in `s`. */
  predicate NoFourDigits(s: string) {
    forall j :: 0 <= j <= |s| ==> !FourDigits(s[j..])
  }

  /** The leading digit run is at least four long exactly when four digits begin the text. */
  lemma LeadingDigitsFour(t: string)
    ensures |LeadingDigits(t)| >= 4 <==> FourDigits(t)
  {
    var d := LeadingDigits(t);
    if |d| >= 4 {
      assert t[..4] == d[..4];
    }
    if FourDigits(t) {
      assert forall k :: 0 <= k < 4 ==> t[k] == t[..4][k];
      assert |d| >= 4;
    }
  }

  /** The first position from `from` on where four digits begin, or `|s|` when there is none. */
  function FirstFourDigits(s: string, from: nat): (i: nat)
    requires from <= |s|
    ensures from <= i <= |s|
    ensures forall j :: from <= j < i ==> !FourDigits(s[j..])
    ensures i < |s| ==> FourDigits(s[i..])
    decreases |s| - from
  {
    if from == |s| || FourDigits(s[from..]) then from
    else FirstFourDigits(s, from + 1)
  }

  /** The search from `from` finds the whole digit run at the first place four digits begin. */
  lemma {:induction false} LongDigitRunFrom(s: string, from: nat)
    requires from <= |s|
    ensures var i := FirstFourDigits(s, from);
      LongDigitRun(s[from..]) == if i < |s| then Some(LeadingDigits(s[i..])) else None
    decreases |s| - from
  {
    if from < |s| {
      var t := s[from..];
      LeadingDigitsFour(t);
      if !FourDigits(t) {
        assert t[1..] == s[from + 1..];
        LongDigitRunFrom(s, from + 1);
      }
    }
  }

  /** The leftmost run of four or more digits is returned whole. */
  lemma LongDigitRunAt(s: string, i: nat)
    requires FirstFourDigitsAt(s, i)
    ensures LongDigitRun(s) == Some(LeadingDigits(s[i..]))
  {
    LongDigitRunFrom(s, 0);
    assert s[0..] == s;
    FirstFourDigitsIs(s, 0, i);
  }

  /** The first run from `from` on is the leftmost one when that lies at or after `from`. */
  lemma {:induction false} FirstFourDigitsIs(s: string, from: nat, i: nat)
    requires from <= i && FirstFourDigitsAt(s, i)
    ensures FirstFourDigits(s, from) == i
    decreases i - from
  {
    if from < i {
      assert !FourDigits(s[from..]);
      FirstFourDigitsIs(s, from + 1, i);
    }
  }

  /** The search finds nothing exactly when no four digits stand in a row. */
  lemma LongDigitRunNone(s: string)
    ensures LongDigitRun(s) == None <==> NoFourDigits(s)
  {
    LongDigitRunFrom(s, 0);
    assert s[0..] == s;
  }

  // ---------------------------------------------------------------------
  // The clock token \d{1,2}:\d{2}(?::\d{2})?
  // ---------------------------------------------------------------------

  /** Text of the shape `H:MM`, `HH:MM`, `H:MM:SS` or `HH:MM:SS`. */
  predicate IsClockText(t: string) {
    var f := Split(t, ':');
    && (|f| == 2 || |f| == 3)
    && 1 <= |f[0]| <= 2
    && (forall i :: 0 <= i < |f| ==> IsDigitString(f[i]))
    && (forall i :: 1 <= i < |f| ==> |f[i]| == 2)
  }

  /** Two digit fields joined by `:` split back into the two fields. */
  lemma ClockFields2(a: string, b: string)
    requires IsDigits(a) && IsDigits(b)
    ensures Split(a + ":" + b, ':') == [a, b]
  {
    assert ':' !in a && ':' !in b by {
      assert !IsDigit(':');
    }
    SplitNone(b, ':');
    SplitFirst(a, b, ':');
  }

  /** Three digit fields joined by `:` split back into the three fields. */
  lemma ClockFields3(a: string, b: string, c: string)
    requires IsDigits(a) && IsDigits(b) && IsDigits(c)
    ensures Split(a + ":" + b + ":" + c, ':') == [a, b, c]
  {
    assert ':' !in a by {
      assert !IsDigit(':');
    }
    ClockFields2(b, c);
    SplitFirst(a, b + ":" + c, ':');
    assert a + ":" + b + ":" + c == a + [':'] + (b + ":" + c);
  }

  /** `h:mm` at the start of `s`, with `h` the first `w` characters, is clock text. */
  lemma ClockPrefix2(s: string, w: nat)
    requires 1 <= w <= 2 && w + 3 <= |s| && IsDigits(s[..w])
    requires s[w] == ':' && IsDigit(s[w + 1]) && IsDigit(s[w + 2])
    ensures StartsWith(s, s[..w + 3]) && IsClockText(s[..w + 3])
  {
    var h, mm := s[..w], s[w + 1..w + 3];
    assert s[..w + 3] == h + ":" + mm;
    ClockText2(h, mm);
  }

  lemma ClockText2(h: string, mm: string)
    requires 1 <= |h| <= 2 && IsDigits(h) && |mm| == 2 && IsDigits(mm)
    ensures IsClockText(h + ":" + mm)
  {
    ClockFields2(h, mm);
    var f := Split(h + ":" + mm, ':');
    assert f[0] == h && f[1] == mm;
  }

  lemma ClockText3(h: string, mm: string, ss: string)
    requires 1 <= |h| <= 2 && IsDigits(h) && |mm| == 2 && IsDigits(mm) && |ss| == 2 && IsDigits(ss)
    ensures IsClockText(h + ":" + mm + ":" + ss)
  {
    ClockFields3(h, mm, ss);
    var f := Split(h + ":" + mm + ":" + ss, ':');
    assert f[0] == h && f[1] == mm && f[2] == ss;
  }

  /** `h:mm:ss` at the start of `s`, with `h` the first `w` characters, is clock text. */
  lemma ClockPrefix3(s: string, w: nat)
    requires 1 <= w <= 2 && w + 6 <= |s| && IsDigits(s[..w])
    requires s[w] == ':' && IsDigit(s[w + 1]) && IsDigit(s[w + 2])
    requires s[w + 3] == ':' && IsDigit(s[w + 4]) && IsDigit(s[w + 5])
    ensures StartsWith(s, s[..w + 6]) && IsClockText(s[..w + 6])
  {
    var h, mm, ss := s[..w], s[w + 1..w + 3], s[w + 4..w + 6];
    assert s[..w + 6] == h + ":" + mm + ":" + ss by {
      assert s[..w + 3] == h + ":" + mm;
      assert s[w + 3..w + 6] == ":" + ss;
      assert s[..w + 6] == s[..w + 3] + s[w + 3..w + 6];
    }
    ClockText3(h, mm, ss);
  }

  /** A clock token at the start of `s`; two hour digits are tried before one. */
  function ClockAt(s: string): (t: Option<string>)
    ensures t.Some? ==> StartsWith(s, t.value) && IsClockText(t.value)
  {
    if s == [] || !IsDigit(s[0]) then None
    else
      var w := if |s| > 1 && IsDigit(s[1]) then 2 else 1;
      if !(w + 3 <= |s| && s[w] == ':' && IsDigit(s[w + 1]) && IsDigit(s[w + 2])) then None
      else if w + 6 <= |s| && s[w + 3] == ':' && IsDigit(s[w + 4]) && IsDigit(s[w + 5]) then
        ClockPrefix3(s, w);
        Some(s[..w + 6])
      else
        ClockPrefix2(s, w);
        Some(s[..w + 3])
  }

  /** `re.search(r'(\d{1,2}:\d{2}(?::\d{2})?)', s)`: the leftmost clock token. */
  function ClockToken(s: string): (t: Option<string>)
    ensures t.Some? ==> IsClockText(t.value)
    decreases |s|
  {
    if s == [] then None
    else if ClockAt(s).Some? then ClockAt(s)
    else ClockToken(s[1..])
  }
}
