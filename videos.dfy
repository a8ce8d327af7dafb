/**
 * The detail page of one video (`modules/video.py`): the preview record of
 * the list pages, the extractors that read each field off a detail page,
 * and the `Video` record they fill in.
 *
 * Every regular expression other than the clock token and the `<span>`
 * block is an abstract matcher held in `PagePatterns`; the extractors fix
 * the order in which the patterns are tried and what is done with a match.
 */
module Videos {
  import opened Wrappers
  import opened Text
  import opened Scan
  import opened Consts
  import opened Utils
  import opened Sorting

  // ---------------------------------------------------------------------
  // Watch-page URL
  // ---------------------------------------------------------------------

  /** `f"{VIDEO_URL_PREFIX}{video_id}"`, from which `extract_video_id` gives the id back. */
  function WatchUrl(videoId: string): (r: string)
    ensures StartsWith(r, VIDEO_URL_PREFIX)
    ensures IsDigitString(videoId) ==> ExtractVideoId(r) == Some(videoId)
  {
    if IsDigitString(videoId) then
      ExtractVideoIdOfUrl(videoId);
      VIDEO_URL_PREFIX + videoId
    else VIDEO_URL_PREFIX + videoId
  }

  /** Clock text such as `12:34` or `1:02:03` is read as a non-negative number of seconds. */
  lemma ClockDuration(t: string)
    ensures IsClockText(t) ==> ParseDuration(t) >= 0
  {
    if IsClockText(t) {
      var f := Split(t, ':');
      JoinSplit(t, ':');
      if |f| == 2 {
        ClockDurationOfFields2(t, f);
      } else {
        ClockDurationOfFields3(t, f);
      }
    }
  }

  lemma ClockDurationOfFields2(t: string, f: seq<string>)
    requires |f| == 2 && IsDigitString(f[0]) && IsDigitString(f[1]) && Join(f, [':']) == t
    ensures ParseDuration(t) >= 0
  {
    assert Join(f[1..], [':']) == f[1];
    ParseDurationTwoFields(f[0], f[1]);
  }

  lemma ClockDurationOfFields3(t: string, f: seq<string>)
    requires |f| == 3 && IsDigitString(f[0]) && IsDigitString(f[1]) && IsDigitString(f[2])
    requires Join(f, [':']) == t
    ensures ParseDuration(t) >= 0
  {
    JoinThree(f);
    ParseDurationThreeFields(f[0], f[1], f[2]);
  }

  /** Three fields joined on `:`. */
  lemma JoinThree(f: seq<string>)
    requires |f| == 3
    ensures Join(f, [':']) == f[0] + ":" + f[1] + ":" + f[2]
  {
    assert f[1..][1..] == f[2..];
    assert Join(f[2..], [':']) == f[2];
    assert Join(f[1..], [':']) == f[1] + [':'] + f[2];
  }

  // ---------------------------------------------------------------------
  // VideoPreview
  // ---------------------------------------------------------------------

  /** `to_dict` of a preview: the six keys, duration and views as the raw text. */
  datatype PreviewDict = PreviewDict(
    videoId: string, title: string, url: string, thumbnail: string,
    duration: string, views: string)

  /** A list-page entry; duration and views are kept as the text the page showed. */
  datatype VideoPreview = VideoPreview(
    videoId: string, title: string, thumbnail: string,
    durationText: string, viewsText: string)
  {
    /** `VideoPreview.url`. */
    function Url(): (r: string)
      ensures StartsWith(r, VIDEO_URL_PREFIX)
      ensures IsDigitString(videoId) ==> ExtractVideoId(r) == Some(videoId)
    {
      WatchUrl(videoId)
    }

    /** `VideoPreview.duration`: the raw text read by `parse_duration`. */
    function Duration(): (r: int)
      ensures IsClockText(durationText) ==> r >= 0
    {
      ClockDuration(durationText);
      ParseDuration(durationText)
    }

    /** `VideoPreview.views`: the raw text read by `parse_views`. */
    function Views(): (r: int)
      ensures IsDigitString(viewsText) ==> r == DecimalValue(viewsText)
    {
      if IsDigitString(viewsText) then
        ParseViewsOfDigits(viewsText);
        ParseViews(viewsText)
      else ParseViews(viewsText)
    }

    /** `VideoPreview.to_dict`. */
    function ToDict(): (d: PreviewDict)
      ensures d.url == Url()
      ensures PreviewOfDict(d) == this
    {
      PreviewDict(videoId, title, Url(), thumbnail, durationText, viewsText)
    }
  }

  /** The preview a `to_dict` result describes: `VideoPreview(**d)` without the derived `url`. */
  function PreviewOfDict(d: PreviewDict): VideoPreview {
    VideoPreview(d.videoId, d.title, d.thumbnail, d.duration, d.views)
  }

  /** A preview whose duration text came from `format_duration` reads back the same seconds. */
  lemma PreviewDurationOfFormatted(p: VideoPreview, seconds: int)
    requires seconds >= 0 && p.durationText == FormatDuration(seconds)
    ensures p.Duration() == seconds
  {
    ParseFormatDuration(seconds);
  }

  /** `to_dict` keeps the raw texts, which `duration` and `views` read afresh. */
  lemma PreviewDictKeepsText(p: VideoPreview)
    ensures ParseDuration(p.ToDict().duration) == p.Duration()
    ensures ParseViews(p.ToDict().views) == p.Views()
    ensures p.ToDict().duration == p.durationText && p.ToDict().views == p.viewsText
  {
  }

  // ---------------------------------------------------------------------
  // The patterns of a detail page
  // ---------------------------------------------------------------------

  /** `[m.group(1) for m in re.finditer(pattern, page)]`, in document order. */
  type Finder = string -> seq<string>

  /**
   * The regular expressions the extractors search with, each reduced to the
   * group the code reads, together with the two decoders the media URL goes
   * through (`unicode_escape` fails with `None`).
   */
  datatype PagePatterns = PagePatterns(
    heading: Matcher,              // REGEX_VIDEO_TITLE, group 1
    titleTag: Matcher,             // REGEX_VIDEO_TITLE_ALT, group 1
    views: seq<Matcher>,           // REGEX_VIDEO_VIEWS, _ALT and four inline patterns, group 0
    uploadDate: Matcher,           // REGEX_VIDEO_UPLOAD_DATE, group 1
    durations: seq<Matcher>,       // the three labelled duration patterns, group 1
    thumbnails: seq<Matcher>,      // THUMBNAIL_ALT, _ALT2, THUMBNAIL and three inline patterns
    artistName: Matcher,           // the `video-artist-name` element
    shareTitle: Matcher,           // the bracketed prefix of the share title
    brandLabel: Matcher,           // the Brand / Circle / Artist label
    metaTags: Finder,              // `article:tag` meta elements
    classTags: Finder,             // the link text inside `single-video-tag` elements
    m3u8: seq<Finder>,             // the three .m3u8 link patterns
    mp4: seq<Finder>,              // the two .mp4 link patterns
    source: Matcher,               // REGEX_VIDEO_SOURCE, group 1
    sourceAlt: Matcher,            // REGEX_VIDEO_SOURCE_ALT, group 0
    mp4Link: Matcher,              // REGEX_VIDEO_MP4, group 0
    unicodeEscape: string -> Option<string>,
    htmlUnescape: string -> string)

  /** A pattern that never matches. */
  function NoMatch(s: string): Option<string> {
    None
  }

  /** `clean_html(g).strip()`: text without markup, single spaces, no line breaks, stripped. */
  function Cleaned(g: string): (r: string)
    ensures IsStripped(r) && '\n' !in r
  {
    var c := CleanHtml(g);
    CleanHtmlSpaces(g);
    StripUnchanged(c);
    PlainNoNewline(c);
    Strip(c)
  }

  lemma PlainNoNewline(s: string)
    requires PlainSpaces(s)
    ensures '\n' !in s
  {
    forall i | 0 <= i < |s| ensures s[i] != '\n' {
      assert IsSpace('\n');
    }
  }

  // ---------------------------------------------------------------------
  // Title
  // ---------------------------------------------------------------------

  const SiteName: string := "Hanime1"

  /** `\s*[-|]\s*Hanime1` (any ASCII case) matches at the start of `u`. */
  predicate SuffixAt(u: string) {
    var a := TrimLeft(u);
    a != [] && (a[0] == '-' || a[0] == '|') && StartsWithIgnoreCase(TrimLeft(a[1..]), SiteName)
  }

  /** The leftmost position at or after `i` where the site suffix begins, or `|t|`. */
  function SuffixStart(t: string, i: nat): (k: nat)
    requires i <= |t|
    ensures i <= k <= |t|
    ensures forall j :: i <= j < k ==> !SuffixAt(t[j..])
    ensures k < |t| ==> SuffixAt(t[k..])
    decreases |t| - i
  {
    if i == |t| then |t|
    else if SuffixAt(t[i..]) then i
    else SuffixStart(t, i + 1)
  }

  /**
   * `re.sub(r'\s*[-|]\s*Hanime1.*$', '', t, flags=re.IGNORECASE)` on text
   * without line breaks, where `.*$` runs to the end: everything from the
   * leftmost suffix on is dropped.
   */
  function RemoveSiteSuffix(t: string): (r: string)
    requires '\n' !in t
    ensures StartsWith(t, r)
    ensures forall j :: 0 <= j < |r| ==> !SuffixAt(t[j..])
    ensures |r| < |t| ==> SuffixAt(t[|r|..])
  {
    t[..SuffixStart(t, 0)]
  }

  /** Leading whitespace does not change whether the suffix starts here. */
  lemma SuffixAtSpace(u: string)
    requires u != []
    ensures IsSpace(u[0]) ==> (SuffixAt(u) <==> SuffixAt(u[1..]))
  {
    if IsSpace(u[0]) {
      TrimLeftSkip(u);
    }
  }

  /** Removing the suffix from stripped text leaves stripped text. */
  lemma RemoveSiteSuffixStripped(t: string)
    requires '\n' !in t
    requires IsStripped(t)
    ensures IsStripped(RemoveSiteSuffix(t))
  {
    var r := RemoveSiteSuffix(t);
    var k := |r|;
    if 0 < k < |t| {
      assert r[0] == t[0] && r[k - 1] == t[k - 1];
      var u := t[k - 1..];
      assert u[1..] == t[k..] && u[0] == t[k - 1];
      SuffixAtSpace(u);
      assert !SuffixAt(t[k - 1..]);
    } else if k == |t| {
      assert r == t;
    }
  }

  /** Leading whitespace is trimmed the same with text appended, once a non-space is reached. */
  lemma {:induction false} TrimLeftConcat(x: string, y: string)
    requires x != [] && !IsSpace(x[|x| - 1])
    ensures TrimLeft(x + y) == TrimLeft(x) + y
  {
    if IsSpace(x[0]) {
      assert (x + y)[1..] == x[1..] + y;
      TrimLeftSkip(x);
      TrimLeftSkip(x + y);
      TrimLeftConcat(x[1..], y);
    } else {
      TrimLeftStop(x);
      TrimLeftStop(x + y);
    }
  }

  /** Text with no `-` or `|` in it cannot hold the start of the suffix. */
  lemma NoSuffixIn(a: string, j: nat, tail: string)
    requires j < |a| && !IsSpace(a[|a| - 1]) && '-' !in a && '|' !in a
    ensures !SuffixAt((a + tail)[j..])
  {
    assert (a + tail)[j..] == a[j..] + tail;
    TrimLeftConcat(a[j..], tail);
    var l := TrimLeft(a[j..]);
    assert |l| == 0 ==> SpaceAt(a[j..], |a[j..]| - 1);
    assert l[0] == a[j..][|a[j..]| - |l|] == a[j + |a[j..]| - |l|];
  }

  /**
   * A title `a` followed by a separator `-` or `|` between optional
   * whitespace and then the site name is cut back to `a`.
   */
  lemma RemoveSiteSuffixOf(a: string, pad: string, sep: char, pad2: string, rest: string)
    requires a != [] && !IsSpace(a[|a| - 1]) && '-' !in a && '|' !in a
    requires forall i :: 0 <= i < |pad| ==> IsSpace(pad[i])
    requires forall i :: 0 <= i < |pad2| ==> IsSpace(pad2[i])
    requires sep == '-' || sep == '|'
    requires '\n' !in a + pad + [sep] + pad2 + SiteName + rest
    ensures RemoveSiteSuffix(a + pad + [sep] + pad2 + SiteName + rest) == a
  {
    var tail := pad + [sep] + pad2 + SiteName + rest;
    var t := a + tail;
    assert t == a + pad + [sep] + pad2 + SiteName + rest;
    forall j | 0 <= j < |a| ensures !SuffixAt(t[j..]) {
      NoSuffixIn(a, j, tail);
    }
    assert t[|a|..] == tail;
    SuffixAtTail(pad, sep, pad2, rest);
    SuffixStartAt(t, |a|);
  }

  /** The separator between optional whitespace and then the site name begins the suffix. */
  lemma SuffixAtTail(pad: string, sep: char, pad2: string, rest: string)
    requires forall i :: 0 <= i < |pad| ==> IsSpace(pad[i])
    requires forall i :: 0 <= i < |pad2| ==> IsSpace(pad2[i])
    requires sep == '-' || sep == '|'
    ensures SuffixAt(pad + [sep] + pad2 + SiteName + rest)
  {
    var name := SiteName;
    var after := [sep] + (pad2 + name + rest);
    assert pad + [sep] + pad2 + name + rest == pad + after;
    TrimLeftPadded(pad, after);
    assert after[1..] == pad2 + (name + rest);
    assert name[0] == 'H';
    TrimLeftPadded(pad2, name + rest);
    StartsWithIgnoreCaseSelf(name, rest);
  }

  /** The first position where the suffix begins is where the search stops. */
  lemma {:induction false} SuffixStartAt(t: string, k: nat)
    requires k < |t| && SuffixAt(t[k..])
    requires forall j :: 0 <= j < k ==> !SuffixAt(t[j..])
    ensures SuffixStart(t, 0) == k
  {
    var m := SuffixStart(t, 0);
    assert m <= k;
    assert m >= k;
  }

  /**
   * `_extract_title`: the cleaned heading text; failing that the cleaned
   * `<title>` text without the site suffix; `""` when neither is present.
   */
  function ExtractTitle(p: PagePatterns, html: string): (r: string)
    ensures IsStripped(r)
    ensures p.heading(html).None? && p.titleTag(html).None? ==> r == ""
  {
    match p.heading(html)
    case Some(g) => Cleaned(g)
    case None =>
      match p.titleTag(html)
      case Some(g) =>
        RemoveSiteSuffixStripped(Cleaned(g));
        RemoveSiteSuffix(Cleaned(g))
      case None => ""
  }

  /** Once the heading matches, the `<title>` element plays no part. */
  lemma ExtractTitleHeadingWins(p: PagePatterns, html: string, other: Matcher)
    requires p.heading(html).Some?
    ensures ExtractTitle(p.(titleTag := other), html) == ExtractTitle(p, html)
  {
  }

  // ---------------------------------------------------------------------
  // Views, date, duration, thumbnail
  // ---------------------------------------------------------------------

  /** `_extract_views`: the whole first match read by `parse_views`; 0 when none matches. */
  function ExtractViews(p: PagePatterns, html: string): (r: int)
    ensures (forall k :: 0 <= k < |p.views| ==> p.views[k](html).None?) ==> r == 0
  {
    FirstMatchNone(p.views, html);
    match FirstMatch(p.views, html)
    case Some(g) => ParseViews(g)
    case None => 0
  }

  /**
   * A labelled match is read through its first run of `[\d,.]`, with the
   * factor of ten thousand exactly when 万 or 萬 occurs in it.
   */
  lemma ExtractViewsLabelled(p: PagePatterns, html: string, pre: string, run: string, rest: string)
    requires FirstMatch(p.views, html) == Some(pre + run + rest) && LabelledRun(pre, run, rest)
    ensures ExtractViews(p, html) == RunValue(run, HasWan(pre + run + rest))
  {
    ParseViewsLabelled(pre, run, rest);
  }

  /** A match holding 万 or 萬, as `觀看次數：9.7万次`, is read with the factor of ten thousand. */
  lemma ExtractViewsWan(p: PagePatterns, html: string, pre: string, run: string, rest: string)
    requires FirstMatch(p.views, html) == Some(pre + run + rest) && LabelledRun(pre, run, rest)
    requires HasWan(pre + run + rest)
    ensures ExtractViews(p, html) == RunValue(run, true)
    ensures IsDigitString(run) ==> ExtractViews(p, html) == DecimalValue(run) * 10000
  {
    ParseViewsLabelled(pre, run, rest);
    if IsDigitString(run) {
      RunValueOfDigits(run, true);
    }
  }

  /** The watch page's own label: a first match `觀看次數：9.7万次` gives 97000 views. */
  lemma ExtractViewsLabelledExample(p: PagePatterns, html: string)
    requires FirstMatch(p.views, html) == Some("觀看次數：9.7万次")
    ensures ExtractViews(p, html) == 97000
  {
    var s := "觀看次數：9.7万次";
    assert s == "觀看次數：" + "9.7" + "万次";
    assert s[8] == '万';
    ParseViewsNineSevenWan("觀看次數：", "万次");
  }

  /** An earlier view pattern that matches hides every later one. */
  lemma ExtractViewsEarlierWins(p: PagePatterns, html: string, later: seq<Matcher>)
    requires FirstMatch(p.views, html).Some?
    ensures ExtractViews(p.(views := p.views + later), html) == ExtractViews(p, html)
  {
    FirstMatchAppend(p.views, later, html);
  }

  /** `_extract_upload_date`: the captured date, or `""`. */
  function ExtractUploadDate(p: PagePatterns, html: string): (r: string)
    ensures p.uploadDate(html).None? ==> r == ""
    ensures p.uploadDate(html).Some? ==> r == p.uploadDate(html).value
  {
    p.uploadDate(html).GetOr("")
  }

  /** The bare clock token `(\d{1,2}:\d{2}(?::\d{2})?)` as a pattern. */
  function ClockPattern(s: string): Option<string> {
    ClockToken(s)
  }

  /** Every labelled duration pattern captures clock text, as `\d{1,2}:\d{2}(?::\d{2})?` does. */
  ghost predicate ClockGroups(p: PagePatterns) {
    forall k, h :: 0 <= k < |p.durations| && p.durations[k](h).Some? ==> IsClockText(p.durations[k](h).value)
  }

  /**
   * `_extract_duration`: the first labelled pattern's clock text, else the
   * first bare clock token, read by `parse_duration`; 0 when neither is found.
   */
  function ExtractDuration(p: PagePatterns, html: string): (r: int)
    ensures ClockGroups(p) ==> r >= 0
  {
    match FirstMatch(p.durations, html)
    case Some(g) =>
      ClockDuration(g);
      ParseDuration(g)
    case None =>
      match ClockToken(html)
      case Some(g) =>
        ClockDuration(g);
        ParseDuration(g)
      case None => 0
  }

  /** The labelled patterns and then the bare token form one chain, tried in that order. */
  lemma ExtractDurationChain(p: PagePatterns, html: string)
    ensures ExtractDuration(p, html)
         == match FirstMatch(p.durations + [ClockPattern], html)
            case Some(g) => ParseDuration(g)
            case None => 0
  {
    FirstMatchAppend(p.durations, [ClockPattern], html);
    FirstMatchHead([ClockPattern], html);
    assert [ClockPattern][1..] == [];
  }

  /** `_extract_thumbnail`: the first of the six patterns that matches, or `""`. */
  function ExtractThumbnail(p: PagePatterns, html: string): (r: string)
    ensures (forall k :: 0 <= k < |p.thumbnails| ==> p.thumbnails[k](html).None?) ==> r == ""
    ensures |p.thumbnails| > 0 && p.thumbnails[0](html).Some? ==> r == p.thumbnails[0](html).value
  {
    FirstMatchNone(p.thumbnails, html);
    if |p.thumbnails| > 0 then FirstMatchHead(p.thumbnails, html); FirstMatch(p.thumbnails, html).GetOr("")
    else FirstMatch(p.thumbnails, html).GetOr("")
  }

  // ---------------------------------------------------------------------
  // Uploader
  // ---------------------------------------------------------------------

  const UnknownUploader: string := "未知上传者"

  /** Markers in the share title that show the bracket is not an uploader. */
  predicate IsMarkedTitle(name: string) {
    Contains(name, "中文字幕") || Contains(name, "無碼")
  }

  /**
   * `_extract_uploader`: the artist-name element if it is not empty once
   * cleaned; else the share title's bracket unless empty or marked; else the
   * brand label; else the sentinel, which is also the answer for an empty page.
   */
  function ExtractUploader(p: PagePatterns, html: string): (r: string)
    ensures html == "" ==> r == UnknownUploader
    ensures r == UnknownUploader || IsStripped(r)
    ensures html != "" && p.artistName(html).None? && p.shareTitle(html).None? && p.brandLabel(html).None?
            ==> r == UnknownUploader
  {
    if html == "" then UnknownUploader
    else UploaderOf(CleanedMatch(p.artistName, html), CleanedMatch(p.shareTitle, html), p.brandLabel(html))
  }

  /** The cleaned text of a pattern's match, `""` when it does not match. */
  function CleanedMatch(m: Matcher, html: string): (r: string)
    ensures IsStripped(r)
    ensures m(html).None? ==> r == ""
  {
    if m(html).Some? then Cleaned(m(html).value) else ""
  }

  /** The three strategies, given the cleaned artist name and share-title bracket. */
  function UploaderOf(artist: string, share: string, brand: Option<string>): (r: string)
    requires IsStripped(artist) && IsStripped(share)
    ensures r == UnknownUploader || IsStripped(r)
    ensures artist == "" && share == "" && brand.None? ==> r == UnknownUploader
  {
    if artist != "" then artist
    else if share != "" && !IsMarkedTitle(share) then share
    else if brand.Some? then Cleaned(brand.value)
    else UnknownUploader
  }

  /** A non-empty artist name wins over the other two sources. */
  lemma ExtractUploaderArtistWins(p: PagePatterns, html: string, share: Matcher, brand: Matcher)
    requires html != "" && CleanedMatch(p.artistName, html) != ""
    ensures ExtractUploader(p.(shareTitle := share, brandLabel := brand), html) == ExtractUploader(p, html)
  {
  }

  /** An artist name that cleans to nothing counts as no match. */
  lemma ExtractUploaderEmptyArtist(p: PagePatterns, html: string)
    requires CleanedMatch(p.artistName, html) == ""
    ensures ExtractUploader(p, html) == ExtractUploader(p.(artistName := NoMatch), html)
  {
    var q := p.(artistName := NoMatch);
    assert CleanedMatch(q.artistName, html) == "";
    assert q.shareTitle == p.shareTitle && q.brandLabel == p.brandLabel;
  }

  /** A share title carrying 中文字幕 or 無碼 is passed over. */
  lemma ExtractUploaderSkipsMarked(p: PagePatterns, html: string)
    requires IsMarkedTitle(CleanedMatch(p.shareTitle, html))
    ensures ExtractUploader(p, html) == ExtractUploader(p.(shareTitle := NoMatch), html)
  {
    var q := p.(shareTitle := NoMatch);
    var a := CleanedMatch(p.artistName, html);
    assert q.artistName == p.artistName && q.brandLabel == p.brandLabel;
    assert CleanedMatch(q.shareTitle, html) == "";
    UploaderSkipsMarked(a, CleanedMatch(p.shareTitle, html), p.brandLabel(html));
  }

  lemma UploaderSkipsMarked(artist: string, share: string, brand: Option<string>)
    requires IsStripped(artist) && IsStripped(share) && IsMarkedTitle(share)
    ensures UploaderOf(artist, share, brand) == UploaderOf(artist, "", brand)
  {
  }

  // ---------------------------------------------------------------------
  // Tags
  // ---------------------------------------------------------------------

  /** The eight tokens that are site chrome rather than tags. */
  const Blacklist: set<string> := {"Hanime1", "H動漫", "線上看", "免費", "1080p", "HD", "登入", "註冊"}

  /** A tag-link text: every `<span ...>...</span>` block removed, then cleaned. */
  function ClassTag(raw: string): (t: string)
    ensures IsStripped(t)
  {
    Cleaned(RemoveBlocks(raw, "<span", "</span>"))
  }

  /** A tag text worth keeping: not empty. */
  predicate NonEmptyTag(t: string) {
    |t| > 0
  }

  /** A tag-link text worth keeping: not empty and shorter than 50 characters. */
  predicate ShortTag(t: string) {
    0 < |t| < 50
  }

  /** What one meta element adds to the tag set: its cleaned text when that is not empty. */
  function MetaTag(raw: string): (r: set<string>)
    ensures forall t :: t in r ==> t == Cleaned(raw) && NonEmptyTag(t)
    ensures NonEmptyTag(Cleaned(raw)) ==> Cleaned(raw) in r
  {
    var t := Cleaned(raw);
    if NonEmptyTag(t) then {t} else {}
  }

  /** The tags of the meta elements: each cleaned, kept when not empty. */
  function MetaTagsOf(raws: seq<string>): (r: set<string>)
    ensures forall t :: t in r ==> NonEmptyTag(t)
    decreases |raws|
  {
    if raws == [] then {}
    else MetaTagsOf(raws[..|raws| - 1]) + MetaTag(raws[|raws| - 1])
  }

  /** The tags of the tag links: kept when not empty and shorter than 50 characters. */
  function ClassTagsOf(raws: seq<string>): (r: set<string>)
    ensures forall t :: t in r ==> ShortTag(t)
    decreases |raws|
  {
    if raws == [] then {}
    else ClassTagsOf(raws[..|raws| - 1]) + LinkTag(raws[|raws| - 1])
  }

  lemma MetaTagsStep(raws: seq<string>, i: nat)
    requires i < |raws|
    ensures MetaTagsOf(raws[..i + 1]) == MetaTagsOf(raws[..i]) + MetaTag(raws[i])
  {
    assert raws[..i + 1][..i] == raws[..i];
  }

  /** What one tag link adds to the tag set: its text when that is kept. */
  function LinkTag(raw: string): (r: set<string>)
    ensures forall t :: t in r ==> t == ClassTag(raw) && ShortTag(t)
    ensures ShortTag(ClassTag(raw)) ==> ClassTag(raw) in r
  {
    var t := ClassTag(raw);
    if ShortTag(t) then {t} else {}
  }

  lemma ClassTagsStep(raws: seq<string>, i: nat)
    requires i < |raws|
    ensures ClassTagsOf(raws[..i + 1]) == ClassTagsOf(raws[..i]) + LinkTag(raws[i])
  {
    assert raws[..i + 1][..i] == raws[..i];
  }

  /** The tags of a page: both sources together, the blacklist taken out. */
  function TagSet(p: PagePatterns, html: string): (r: set<string>)
    ensures forall t :: t in r ==> NonEmptyTag(t) && t !in Blacklist
    ensures |html| == 0 ==> r == {}
  {
    if |html| == 0 then {}
    else (MetaTagsOf(p.metaTags(html)) + ClassTagsOf(p.classTags(html))) - Blacklist
  }

  /** Every tag is stripped text. */
  lemma {:induction false} MetaTagsStripped(raws: seq<string>, t: string)
    requires t in MetaTagsOf(raws)
    ensures IsStripped(t)
    decreases |raws|
  {
    var last := Cleaned(raws[|raws| - 1]);
    if t != last {
      MetaTagsStripped(raws[..|raws| - 1], t);
    }
  }

  lemma {:induction false} ClassTagsStripped(raws: seq<string>, t: string)
    requires t in ClassTagsOf(raws)
    ensures IsStripped(t)
    decreases |raws|
  {
    var last := ClassTag(raws[|raws| - 1]);
    if t != last {
      ClassTagsStripped(raws[..|raws| - 1], t);
    }
  }

  /** Every tag of a page is stripped text. */
  lemma TagSetStripped(p: PagePatterns, html: string, t: string)
    requires t in TagSet(p, html)
    ensures IsStripped(t)
  {
    if t in MetaTagsOf(p.metaTags(html)) {
      MetaTagsStripped(p.metaTags(html), t);
    } else {
      ClassTagsStripped(p.classTags(html), t);
    }
  }

  /** The first loop of `_extract_tags`: every cleaned meta text that is not empty. */
  method CollectMetaTags(metas: seq<string>) returns (found: set<string>)
    ensures found == MetaTagsOf(metas)
  {
    found := {};
    var i := 0;
    while i < |metas|
      invariant 0 <= i <= |metas|
      invariant found == MetaTagsOf(metas[..i])
    {
      MetaTagsStep(metas, i);
      found := found + MetaTag(metas[i]);
      i := i + 1;
    }
    assert metas[..i] == metas;
  }

  /** The second loop of `_extract_tags`: span-free tag-link texts, not empty and under 50 characters. */
  method CollectClassTags(links: seq<string>) returns (found: set<string>)
    ensures found == ClassTagsOf(links)
  {
    found := {};
    var j := 0;
    while j < |links|
      invariant 0 <= j <= |links|
      invariant found == ClassTagsOf(links[..j])
    {
      ClassTagsStep(links, j);
      found := found + LinkTag(links[j]);
      j := j + 1;
    }
    assert links[..j] == links;
  }

  /**
   * `_extract_tags`: the tag set filled from the meta elements and the tag
   * links, less the blacklist, in sorted order.
   */
  method ExtractTags(p: PagePatterns, html: string) returns (tags: seq<string>)
    ensures StrictlySorted(tags) && Elements(tags) == TagSet(p, html)
    ensures |html| == 0 ==> tags == []
  {
    if |html| == 0 {
      return [];
    }
    var found := CollectMetaTags(p.metaTags(html));
    var linked := CollectClassTags(p.classTags(html));
    found := found + linked;
    tags := SortSet(found - Blacklist);
  }

  /** Two tag lists that are both sorted and hold the page's tags are the same list. */
  lemma ExtractTagsDetermined(p: PagePatterns, html: string, a: seq<string>, b: seq<string>)
    requires StrictlySorted(a) && Elements(a) == TagSet(p, html)
    requires StrictlySorted(b) && Elements(b) == TagSet(p, html)
    ensures a == b
  {
    SortedUnique(a, b);
  }

  /** A `<span>...</span>` block at the start of a tag link is removed with its text. */
  lemma ClassTagDropsSpan(body: string, rest: string)
    requires '<' !in body
    ensures ClassTag("<span" + ">" + body + "</span>" + rest) == ClassTag(rest)
  {
    RemoveBlocksBlock("<span", body, "</span>", rest);
  }

  // ---------------------------------------------------------------------
  // Media URL
  // ---------------------------------------------------------------------

  /** A candidate decoded: `unicode_escape` (kept as is when it fails), `\/` to `/`, entities. */
  function Repair(p: PagePatterns, u: string): string {
    p.htmlUnescape(ReplaceAll(p.unicodeEscape(u).GetOr(u), "\\/", "/"))
  }

  /** A candidate is returned when its repaired form starts with `http`. */
  predicate IsAccepted(p: PagePatterns, u: string) {
    StartsWith(Repair(p, u), "http")
  }

  /** The position of the first accepted candidate, or `|cs|`. */
  function FirstAccepted(p: PagePatterns, cs: seq<string>): (k: nat)
    ensures k <= |cs|
    ensures forall j :: 0 <= j < k ==> !IsAccepted(p, cs[j])
    ensures k < |cs| ==> IsAccepted(p, cs[k])
  {
    if cs == [] then 0
    else if IsAccepted(p, cs[0]) then 0
    else 1 + FirstAccepted(p, cs[1..])
  }

  /** The first accepted position is the only one with nothing accepted before it. */
  lemma FirstAcceptedIs(p: PagePatterns, cs: seq<string>, k: nat)
    requires k <= |cs|
    requires forall j :: 0 <= j < k ==> !IsAccepted(p, cs[j])
    requires k < |cs| ==> IsAccepted(p, cs[k])
    ensures FirstAccepted(p, cs) == k
  {
  }

  /** The first accepted candidate, repaired; `None` when no candidate is accepted. */
  function FirstRepaired(p: PagePatterns, cs: seq<string>): (r: Option<string>)
    ensures r.Some? ==> StartsWith(r.value, "http")
  {
    var k := FirstAccepted(p, cs);
    if k < |cs| then Some(Repair(p, cs[k])) else None
  }

  /** Nothing is returned exactly when no candidate is accepted. */
  lemma FirstRepairedNone(p: PagePatterns, cs: seq<string>)
    ensures FirstRepaired(p, cs).None? <==> forall j :: 0 <= j < |cs| ==> !IsAccepted(p, cs[j])
  {
  }

  lemma FirstRepairedHead(p: PagePatterns, cs: seq<string>)
    requires |cs| > 0
    ensures FirstRepaired(p, cs) == if IsAccepted(p, cs[0]) then Some(Repair(p, cs[0])) else FirstRepaired(p, cs[1..])
  {
    if !IsAccepted(p, cs[0]) {
      assert FirstAccepted(p, cs) == 1 + FirstAccepted(p, cs[1..]);
    }
  }

  /** Two candidate lists tried one after the other: the second is reached only when the first yields nothing. */
  lemma {:induction false} FirstRepairedAppend(p: PagePatterns, a: seq<string>, b: seq<string>)
    ensures FirstRepaired(p, a + b) == if FirstRepaired(p, a).Some? then FirstRepaired(p, a) else FirstRepaired(p, b)
  {
    if a == [] {
      assert a + b == b;
    } else {
      FirstRepairedHead(p, a + b);
      FirstRepairedHead(p, a);
      assert (a + b)[0] == a[0] && (a + b)[1..] == a[1..] + b;
      FirstRepairedAppend(p, a[1..], b);
    }
  }

  /** The captures of a list of patterns, pattern by pattern, each in document order. */
  function Found(fs: seq<Finder>, html: string): seq<string>
    decreases |fs|
  {
    if fs == [] then [] else Found(fs[..|fs| - 1], html) + fs[|fs| - 1](html)
  }

  /** The candidates in the order they are tried: every .m3u8 one before any .mp4 one. */
  function Candidates(p: PagePatterns, html: string): seq<string> {
    Found(p.m3u8, html) + Found(p.mp4, html)
  }

  /** `clean_url`: `""` stays `""`; otherwise `\/` to `/`, then entities. */
  function CleanUrl(p: PagePatterns, u: string): string {
    if u == "" then "" else p.htmlUnescape(ReplaceAll(u, "\\/", "/"))
  }

  /** The second stage: REGEX_VIDEO_SOURCE, then _SOURCE_ALT, then _MP4, each through `clean_url`. */
  function FallbackUrl(p: PagePatterns, html: string): (r: string)
    ensures p.source(html).None? && p.sourceAlt(html).None? && p.mp4Link(html).None? ==> r == ""
  {
    if p.source(html).Some? then CleanUrl(p, p.source(html).value)
    else if p.sourceAlt(html).Some? then CleanUrl(p, p.sourceAlt(html).value)
    else if p.mp4Link(html).Some? then CleanUrl(p, p.mp4Link(html).value)
    else ""
  }

  /** What `_extract_video_url` returns: the first accepted candidate, else the second stage. */
  function VideoUrl(p: PagePatterns, html: string): (r: string)
    ensures |html| == 0 ==> r == ""
  {
    if |html| == 0 then ""
    else
      match FirstRepaired(p, Candidates(p, html))
      case Some(u) => u
      case None => FallbackUrl(p, html)
  }

  /** An accepted .m3u8 candidate wins over every .mp4 candidate. */
  lemma VideoUrlPrefersM3u8(p: PagePatterns, html: string)
    requires |html| > 0
    requires FirstRepaired(p, Found(p.m3u8, html)).Some?
    ensures VideoUrl(p, html) == FirstRepaired(p, Found(p.m3u8, html)).value
  {
    FirstRepairedAppend(p, Found(p.m3u8, html), Found(p.mp4, html));
  }

  /** With no accepted candidate at all, the second stage decides. */
  lemma VideoUrlFallback(p: PagePatterns, html: string)
    requires |html| > 0
    requires forall j :: 0 <= j < |Candidates(p, html)| ==> !IsAccepted(p, Candidates(p, html)[j])
    ensures VideoUrl(p, html) == FallbackUrl(p, html)
  {
    FirstRepairedNone(p, Candidates(p, html));
  }

  predicate IsPrefix(a: seq<string>, b: seq<string>) {
    |a| <= |b| && b[..|a|] == a
  }

  lemma {:induction false} FoundPrefix(fs: seq<Finder>, j: nat, html: string)
    requires j <= |fs|
    ensures IsPrefix(Found(fs[..j], html), Found(fs, html))
    decreases |fs| - j
  {
    if j < |fs| {
      FoundPrefix(fs, j + 1, html);
      assert fs[..j + 1][..j] == fs[..j];
      assert Found(fs[..j + 1], html) == Found(fs[..j], html) + fs[j](html);
    } else {
      assert fs[..j] == fs;
    }
  }

  /**
   * The innermost loop of `_extract_video_url`: each capture is decoded with
   * `unicode_escape` (kept when that fails), `\/` turned into `/`, entities
   * unescaped, and the first one starting with `http` is returned.
   */
  method TryCandidates(p: PagePatterns, matches: seq<string>) returns (r: Option<string>)
    ensures r == FirstRepaired(p, matches)
  {
    var m := 0;
    while m < |matches|
      invariant 0 <= m <= |matches|
      invariant FirstRepaired(p, matches[..m]).None?
    {
      var u := matches[m];
      var decoded := p.unicodeEscape(u);
      if decoded.Some? {
        u := decoded.value;
      }
      u := ReplaceAll(u, "\\/", "/");
      u := p.htmlUnescape(u);
      assert u == Repair(p, matches[m]);
      if StartsWith(u, "http") {
        CandidateAccepted(p, matches, m);
        return Some(u);
      }
      CandidateRejected(p, matches, m);
      m := m + 1;
    }
    assert matches[..m] == matches;
    r := None;
  }

  lemma CandidateAccepted(p: PagePatterns, cs: seq<string>, m: nat)
    requires m < |cs|
    requires FirstRepaired(p, cs[..m]).None?
    requires IsAccepted(p, cs[m])
    ensures FirstRepaired(p, cs) == Some(Repair(p, cs[m]))
  {
    assert cs == cs[..m] + [cs[m]] + cs[m + 1..];
    FirstRepairedAppend(p, cs[..m] + [cs[m]], cs[m + 1..]);
    FirstRepairedAppend(p, cs[..m], [cs[m]]);
    FirstRepairedHead(p, [cs[m]]);
  }

  lemma CandidateRejected(p: PagePatterns, cs: seq<string>, m: nat)
    requires m < |cs|
    requires FirstRepaired(p, cs[..m]).None?
    requires !IsAccepted(p, cs[m])
    ensures FirstRepaired(p, cs[..m + 1]).None?
  {
    assert cs[..m + 1] == cs[..m] + [cs[m]];
    FirstRepairedAppend(p, cs[..m], [cs[m]]);
    FirstRepairedHead(p, [cs[m]]);
  }

  /** The middle loop of `_extract_video_url`: the patterns of one extension in order. */
  method TryPatterns(p: PagePatterns, patterns: seq<Finder>, html: string) returns (r: Option<string>)
    ensures r == FirstRepaired(p, Found(patterns, html))
  {
    var j := 0;
    while j < |patterns|
      invariant 0 <= j <= |patterns|
      invariant FirstRepaired(p, Found(patterns[..j], html)).None?
    {
      var matches := patterns[j](html);
      FoundStep(patterns, j, html);
      var hit := TryCandidates(p, matches);
      if hit.Some? {
        FoundPrefix(patterns, j + 1, html);
        AcceptedIn(p, Found(patterns, html), Found(patterns[..j], html), matches);
        return hit;
      }
      FirstRepairedAppend(p, Found(patterns[..j], html), matches);
      j := j + 1;
    }
    assert patterns[..j] == patterns;
    r := None;
  }

  lemma FoundStep(fs: seq<Finder>, j: nat, html: string)
    requires j < |fs|
    ensures Found(fs[..j + 1], html) == Found(fs[..j], html) + fs[j](html)
  {
    assert fs[..j + 1][..j] == fs[..j];
  }

  /** The captures before `matches` yield nothing, so the first accepted one of `matches` is returned. */
  lemma AcceptedIn(p: PagePatterns, all: seq<string>, pre: seq<string>, matches: seq<string>)
    requires IsPrefix(pre + matches, all)
    requires FirstRepaired(p, pre).None?
    requires FirstRepaired(p, matches).Some?
    ensures FirstRepaired(p, all) == FirstRepaired(p, matches)
  {
    var head := pre + matches;
    assert all == head + all[|head|..];
    FirstRepairedAppend(p, head, all[|head|..]);
    FirstRepairedAppend(p, pre, matches);
  }

  /**
   * `_extract_video_url`: every capture of the .m3u8 patterns and then of
   * the .mp4 patterns is repaired and returned if it starts with `http`;
   * failing that, the second stage; `""` for an empty page.
   */
  method ExtractVideoUrl(p: PagePatterns, html: string) returns (url: string)
    ensures url == VideoUrl(p, html)
  {
    if |html| == 0 {
      return "";
    }
    var hit := TryPatterns(p, p.m3u8, html);
    if hit.Some? {
      VideoUrlPrefersM3u8(p, html);
      return hit.value;
    }
    hit := TryPatterns(p, p.mp4, html);
    FirstRepairedAppend(p, Found(p.m3u8, html), Found(p.mp4, html));
    if hit.Some? {
      return hit.value;
    }
    url := FallbackUrl(p, html);
  }

  // ---------------------------------------------------------------------
  // The detail-page record
  // ---------------------------------------------------------------------

  /** The eight detail fields read from one page. */
  datatype Details = Details(
    title: string, views: int, uploadDate: string, duration: int,
    thumbnail: string, uploader: string, tags: seq<string>, videoUrl: string)

  /** Every extractor run on one page. */
  method ReadDetails(p: PagePatterns, html: string) returns (d: Details)
    ensures d.title == ExtractTitle(p, html) && d.views == ExtractViews(p, html)
    ensures d.uploadDate == ExtractUploadDate(p, html) && d.duration == ExtractDuration(p, html)
    ensures d.thumbnail == ExtractThumbnail(p, html) && d.uploader == ExtractUploader(p, html)
    ensures StrictlySorted(d.tags) && Elements(d.tags) == TagSet(p, html)
    ensures d.videoUrl == VideoUrl(p, html)
  {
    var tags := ExtractTags(p, html);
    var media := ExtractVideoUrl(p, html);
    d := Details(ExtractTitle(p, html), ExtractViews(p, html), ExtractUploadDate(p, html),
      ExtractDuration(p, html), ExtractThumbnail(p, html), ExtractUploader(p, html), tags, media);
  }

  /** A video's detail record, filled in from its watch page by `ParseHtml`. */
  class Video {
    var videoId: string
    var title: string
    var views: int
    var duration: int
    var uploadDate: string
    var thumbnail: string
    var uploader: string
    var tags: seq<string>
    var videoUrl: string
    var htmlContent: string
    var fetched: bool

    /** The dataclass defaults: empty texts, zero counts, no tags, not fetched. */
    constructor(videoId: string, htmlContent: string)
      ensures this.videoId == videoId && this.htmlContent == htmlContent
      ensures title == "" && views == 0 && duration == 0 && uploadDate == ""
      ensures thumbnail == "" && uploader == "" && tags == [] && videoUrl == ""
      ensures !fetched
    {
      this.videoId := videoId;
      title := "";
      views := 0;
      duration := 0;
      uploadDate := "";
      thumbnail := "";
      uploader := "";
      tags := [];
      videoUrl := "";
      this.htmlContent := htmlContent;
      fetched := false;
    }

    /** `Video.url`: the watch page, from which `extract_video_id` gives the id back. */
    function Url(): (r: string)
      reads this
      ensures StartsWith(r, VIDEO_URL_PREFIX)
      ensures IsDigitString(videoId) ==> ExtractVideoId(r) == Some(videoId)
    {
      WatchUrl(videoId)
    }

    /** `Video.duration_formatted`: clock text that `parse_duration` reads back as the duration. */
    function DurationFormatted(): (r: string)
      reads this
      ensures duration >= 0 ==> ParseDuration(r) == duration
      ensures duration <= 0 ==> r == "00:00"
    {
      FormatDurationShape(duration);
      if duration >= 0 then
        ParseFormatDuration(duration);
        FormatDuration(duration)
      else FormatDuration(duration)
    }

    /** `Video.views_formatted`: read back exactly below 1000, within 500 from 10000 on. */
    function ViewsFormatted(): (r: string)
      reads this
      ensures 0 <= views < 1000 ==> ParseViews(r) == views
      ensures views >= 10000 ==> -500 <= ParseViews(r) - views <= 500
    {
      if 0 <= views < 1000 then
        ParseFormatViewsSmall(views);
        FormatViews(views)
      else if views >= 10000 then
        ParseFormatViewsWan(views);
        FormatViews(views)
      else FormatViews(views)
    }

    /** The eight detail fields set at once; identity and content kept. */
    method Store(d: Details)
      modifies this
      ensures videoId == old(videoId) && htmlContent == old(htmlContent) && fetched == old(fetched)
      ensures title == d.title && views == d.views && uploadDate == d.uploadDate && duration == d.duration
      ensures thumbnail == d.thumbnail && uploader == d.uploader && tags == d.tags && videoUrl == d.videoUrl
    {
      title, views, uploadDate, duration := d.title, d.views, d.uploadDate, d.duration;
      thumbnail, uploader, tags, videoUrl := d.thumbnail, d.uploader, d.tags, d.videoUrl;
    }

    /**
     * `_parse_html`: with page content, every detail field is overwritten by
     * its extractor; without content nothing changes, so `uploader` keeps its
     * value rather than taking the sentinel.
     */
    method ParseHtml(p: PagePatterns)
      modifies this
      ensures videoId == old(videoId) && htmlContent == old(htmlContent) && fetched == old(fetched)
      ensures |htmlContent| == 0 ==> title == old(title) && views == old(views) && duration == old(duration)
      ensures |htmlContent| == 0 ==> uploadDate == old(uploadDate) && thumbnail == old(thumbnail)
      ensures |htmlContent| == 0 ==> uploader == old(uploader) && tags == old(tags) && videoUrl == old(videoUrl)
      ensures |htmlContent| > 0 ==> title == ExtractTitle(p, htmlContent) && views == ExtractViews(p, htmlContent)
      ensures |htmlContent| > 0 ==> uploadDate == ExtractUploadDate(p, htmlContent)
      ensures |htmlContent| > 0 ==> duration == ExtractDuration(p, htmlContent)
      ensures |htmlContent| > 0 ==> thumbnail == ExtractThumbnail(p, htmlContent)
      ensures |htmlContent| > 0 ==> uploader == ExtractUploader(p, htmlContent)
      ensures |htmlContent| > 0 ==> StrictlySorted(tags) && Elements(tags) == TagSet(p, htmlContent)
      ensures |htmlContent| > 0 ==> videoUrl == VideoUrl(p, htmlContent)
    {
      var html := htmlContent;
      if |html| == 0 {
        return;
      }
      var d := ReadDetails(p, html);
      Store(d);
    }
  }
}
