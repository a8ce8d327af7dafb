/**
 * The listing side of the site client (`modules/client.py`): the video ids
 * of a list page and the previews built for them, the card parser used when
 * that finds nothing, the three-tier fallback of the home page, the search
 * URL and the page iteration, and the random pick.
 *
 * The page fetch is a parameter (`Fetcher`, `""` when the fetch fails). The
 * id scans of the link and `data-video-id` patterns are hand-written
 * scanners; the patterns built around a known id and the card patterns are
 * abstract matchers held in `ListPatterns`.
 */
module Client {
  import opened Wrappers
  import opened Text
  import opened Scan
  import opened Consts
  import opened Utils
  import opened Sorting
  import opened Videos
  import opened EmbeddedJson

  /** The text served at a URL, `""` when the fetch fails. */
  type Fetcher = string -> string

  // ---------------------------------------------------------------------
  // First occurrences
  // ---------------------------------------------------------------------

  /** The ids of a scan with blank ones and repeats dropped, each at its first occurrence. */
  function Dedup(xs: seq<string>): seq<string>
  {
    if xs == [] then [] else AddId(Dedup(xs[..|xs| - 1]), xs[|xs| - 1])
  }

  /** One more scanned id: appended unless blank or already kept. */
  function AddId(d: seq<string>, x: string): (r: seq<string>)
    ensures r == d || (r == d + [x] && x != "" && x !in d)
    ensures x != "" && x !in d ==> r == d + [x]
  {
    if x == "" || x in d then d else d + [x]
  }

  lemma DedupSnoc(xs: seq<string>, x: string)
    ensures Dedup(xs + [x]) == AddId(Dedup(xs), x)
  {
    assert (xs + [x])[..|xs|] == xs;
  }

  predicate Distinct(s: seq<string>) {
    forall i, j :: 0 <= i < j < |s| ==> s[i] != s[j]
  }

  /** Before every occurrence of a later entry of `r`, each earlier entry of `r` has already occurred. */
  predicate InFirstOccurrenceOrder(r: seq<string>, xs: seq<string>) {
    forall i, j, k :: 0 <= i < j < |r| && 0 <= k < |xs| && xs[k] == r[j] ==> r[i] in xs[..k]
  }

  /** An id is kept exactly when it is not blank and was scanned. */
  lemma {:induction false} DedupHas(xs: seq<string>, x: string)
    ensures x in Dedup(xs) <==> x in xs && x != ""
  {
    if xs != [] {
      var pre := xs[..|xs| - 1];
      DedupHas(pre, x);
      assert xs == pre + [xs[|xs| - 1]];
      assert x in xs <==> x in pre || x == xs[|xs| - 1];
    }
  }

  /** Exactly the non-blank ids of the scan are kept. */
  lemma DedupElements(xs: seq<string>)
    ensures forall x :: x in Dedup(xs) <==> x in xs && x != ""
  {
    forall x ensures x in Dedup(xs) <==> x in xs && x != "" {
      DedupHas(xs, x);
    }
  }

  /** No id is kept twice. */
  lemma {:induction false} DedupDistinct(xs: seq<string>)
    ensures Distinct(Dedup(xs))
  {
    if xs != [] {
      var pre := xs[..|xs| - 1];
      DedupDistinct(pre);
      DedupElements(pre);
    }
  }

  /** The kept ids are in the order of their first occurrences. */
  lemma {:induction false} DedupOrder(xs: seq<string>)
    ensures InFirstOccurrenceOrder(Dedup(xs), xs)
  {
    if xs != [] {
      var n := |xs|;
      var pre := xs[..n - 1];
      var x := xs[n - 1];
      var d := Dedup(pre);
      var r := Dedup(xs);
      DedupOrder(pre);
      DedupElements(pre);
      assert r == d || (r == d + [x] && x !in d);
      forall i, j, k | 0 <= i < j < |r| && 0 <= k < n && xs[k] == r[j]
        ensures r[i] in xs[..k]
      {
        assert r[i] == d[i];
        assert k < n - 1 ==> pre[k] == xs[k] && xs[..k] == pre[..k];
        assert j < |d| ==> r[j] == d[j];
        if j < |d| && k == n - 1 {
          assert x == d[j] && x in pre;
          var k' :| 0 <= k' < n - 1 && pre[k'] == x;
          assert d[i] in pre[..k'];
          assert pre[..k'] == xs[..k'] && xs[..k'] <= xs[..k];
        } else if k == n - 1 {
          assert d[i] in pre && pre == xs[..k];
        }
      }
    }
  }

  /** A scan keeps no id exactly when every id it found is blank. */
  lemma DedupNonEmpty(xs: seq<string>)
    ensures Dedup(xs) == [] <==> forall i :: 0 <= i < |xs| ==> xs[i] == ""
  {
    if Dedup(xs) != [] {
      DedupHas(xs, Dedup(xs)[0]);
    }
    forall i | 0 <= i < |xs| && xs[i] != "" ensures Dedup(xs) != [] {
      DedupHas(xs, xs[i]);
    }
  }

  // ---------------------------------------------------------------------
  // Candidate ids of a list page
  // ---------------------------------------------------------------------

  /** `REGEX_VIDEO_CARD_SIMPLE`, `href="(/watch\?v=(\d+))"` ignoring case: the second group of each match. */
  function SimpleIds(html: string): seq<string> {
    FindIds(html, "href=\"/watch?v=", true, true)
  }

  /** `data-video-id="(\d+)"`: the group of each match. */
  function DataIds(html: string): seq<string> {
    FindIds(html, "data-video-id=\"", false, true)
  }

  /** `/watch\?v=(\d+)`: the group of each match. */
  function WatchIds(html: string): seq<string> {
    FindIds(html, "/watch?v=", false, false)
  }

  /**
   * The ids `_parse_video_list` builds previews for: the first occurrences
   * of the link scan, or, when that finds none, those of the
   * `data-video-id` scan followed by the bare `/watch?v=` scan.
   */
  function ListIds(html: string): (ids: seq<string>)
    ensures Distinct(ids)
  {
    var simple := Dedup(SimpleIds(html));
    DedupDistinct(SimpleIds(html));
    DedupDistinct(DataIds(html) + WatchIds(html));
    if simple != [] then simple else Dedup(DataIds(html) + WatchIds(html))
  }

  /**
   * One `for match in ...finditer(...)` loop of `_parse_video_list`: each id
   * not yet seen is recorded in `seen` and appended.
   */
  method CollectNewIds(found: seq<string>, ids: seq<string>, seen: set<string>, ghost before: seq<string>)
    returns (ids': seq<string>, seen': set<string>)
    requires ids == Dedup(before) && seen == Elements(ids)
    ensures ids' == Dedup(before + found) && seen' == Elements(ids')
  {
    ids', seen' := ids, seen;
    var i := 0;
    assert before + found[..0] == before;
    while i < |found|
      invariant 0 <= i <= |found|
      invariant ids' == Dedup(before + found[..i]) && seen' == Elements(ids')
    {
      var vid := found[i];
      assert before + found[..i + 1] == (before + found[..i]) + [vid];
      DedupSnoc(before + found[..i], vid);
      assert vid in seen' <==> vid in ids';
      if vid != "" && vid !in seen' {
        ElementsSnoc(ids', vid);
        seen' := seen' + {vid};
        ids' := ids' + [vid];
      }
      i := i + 1;
    }
    assert found[..i] == found;
  }

  /** Every id scanned is a digit string, so none is blank. */
  lemma IdsNotBlank(ids: seq<string>)
    requires forall i :: 0 <= i < |ids| ==> IsDigitString(ids[i])
    ensures Dedup(ids) == [] <==> ids == []
  {
    DedupNonEmpty(ids);
    if ids != [] {
      assert IsDigitString(ids[0]);
    }
  }

  /**
   * The extended scans are used only when the link scan finds no id; the
   * ids are distinct, each came from one of the scans, and they are in the
   * order of their first occurrences in the scans used.
   */
  lemma ListIdsAre(html: string)
    ensures SimpleIds(html) != [] ==> ListIds(html) == Dedup(SimpleIds(html))
    ensures SimpleIds(html) == [] ==> ListIds(html) == Dedup(DataIds(html) + WatchIds(html))
    ensures Distinct(ListIds(html))
    ensures forall x :: x in ListIds(html) ==> x in SimpleIds(html) || x in DataIds(html) || x in WatchIds(html)
    ensures InFirstOccurrenceOrder(ListIds(html),
              if SimpleIds(html) != [] then SimpleIds(html) else DataIds(html) + WatchIds(html))
  {
    IdsNotBlank(SimpleIds(html));
    DedupDistinct(SimpleIds(html));
    DedupDistinct(DataIds(html) + WatchIds(html));
    DedupElements(SimpleIds(html));
    DedupElements(DataIds(html) + WatchIds(html));
    DedupOrder(SimpleIds(html));
    DedupOrder(DataIds(html) + WatchIds(html));
  }

  // ---------------------------------------------------------------------
  // Thumbnail and title of one id
  // ---------------------------------------------------------------------

  /** A pattern written around a video id (`rf'...{video_id}...'`), applied to a page. */
  type IdPattern = string -> Matcher

  /**
   * The patterns of the list parser: those built around an id for the
   * thumbnail and for the title, and, for each of the three card patterns
   * of `_parse_video_cards_advanced`, its matches on a page.
   */
  datatype ListPatterns = ListPatterns(
    thumbnails: seq<IdPattern>,
    titles: seq<IdPattern>,
    cards: string -> seq<seq<CardMatch>>)

  /** The patterns instantiated for one id. */
  function ForId(ps: seq<IdPattern>, id: string): (ms: seq<Matcher>)
    ensures |ms| == |ps|
  {
    seq(|ps|, k requires 0 <= k < |ps| => ps[k](id))
  }

  /** `_extract_thumbnail_for_id`: the group of the first pattern that matches, `""` when none does. */
  function ThumbnailOf(lp: ListPatterns, html: string, id: string): string {
    FirstMatch(ForId(lp.thumbnails, id), html).GetOr("")
  }

  /** The cleaned title text of a match. */
  function CleanTitle(g: string): string {
    Strip(CleanHtml(g))
  }

  /**
   * `_extract_title_for_id` over the patterns from `ms` on: the cleaned
   * group of the first match whose cleaned text is longer than one
   * character, `""` when there is none.
   */
  function TitleFrom(ms: seq<Matcher>, html: string): string
  {
    if ms == [] then ""
    else if AcceptsTitle(ms[0](html)) then CleanTitle(ms[0](html).value)
    else TitleFrom(ms[1..], html)
  }

  /** A match is accepted as a title when its cleaned text is longer than one character. */
  predicate AcceptsTitle(m: Option<string>) {
    m.Some? && |CleanTitle(m.value)| > 1
  }

  /**
   * The title is `""` exactly when no pattern gives an acceptable title;
   * otherwise it is the cleaned text of the first one that does.
   */
  lemma {:induction false} TitleFromIs(ms: seq<Matcher>, html: string) returns (k: nat)
    ensures k <= |ms|
    ensures forall j :: 0 <= j < k ==> !AcceptsTitle(ms[j](html))
    ensures k < |ms| ==> AcceptsTitle(ms[k](html)) && TitleFrom(ms, html) == CleanTitle(ms[k](html).value)
    ensures k == |ms| ==> TitleFrom(ms, html) == ""
  {
    if ms == [] {
      k := 0;
    } else if AcceptsTitle(ms[0](html)) {
      k := 0;
    } else {
      var k' := TitleFromIs(ms[1..], html);
      k := k' + 1;
      forall j | 0 <= j < k ensures !AcceptsTitle(ms[j](html)) {
        if j > 0 {
          assert ms[j] == ms[1..][j - 1];
        }
      }
    }
  }

  /** A title found is never a single character, and has no surrounding space. */
  lemma TitleFromShape(ms: seq<Matcher>, html: string)
    ensures TitleFrom(ms, html) == "" || (|TitleFrom(ms, html)| > 1 && IsStripped(TitleFrom(ms, html)))
  {
    var k := TitleFromIs(ms, html);
  }

  function TitleOf(lp: ListPatterns, html: string, id: string): string {
    TitleFrom(ForId(lp.titles, id), html)
  }

  /** `_extract_thumbnail_for_id`: the patterns are tried in order and the first match returned. */
  method ExtractThumbnailForId(lp: ListPatterns, html: string, id: string) returns (r: string)
    ensures r == ThumbnailOf(lp, html, id)
  {
    var patterns := ForId(lp.thumbnails, id);
    var k := 0;
    while k < |patterns|
      invariant 0 <= k <= |patterns|
      invariant FirstMatch(patterns, html) == FirstMatch(patterns[k..], html)
    {
      var m := patterns[k](html);
      FirstMatchHead(patterns[k..], html);
      if m.Some? {
        return m.value;
      }
      assert patterns[k..][1..] == patterns[k + 1..];
      k := k + 1;
    }
    FirstMatchNone(patterns[k..], html);
    r := "";
  }

  /** `_extract_title_for_id`: the first match whose cleaned text is longer than one character. */
  method ExtractTitleForId(lp: ListPatterns, html: string, id: string) returns (r: string)
    ensures r == TitleOf(lp, html, id)
  {
    var patterns := ForId(lp.titles, id);
    var k := 0;
    while k < |patterns|
      invariant 0 <= k <= |patterns|
      invariant TitleFrom(patterns, html) == TitleFrom(patterns[k..], html)
    {
      var m := patterns[k](html);
      assert patterns[k..][1..] == patterns[k + 1..];
      if m.Some? {
        var title := CleanTitle(m.value);
        if title != "" && |title| > 1 {
          return title;
        }
      }
      k := k + 1;
    }
    r := "";
  }

  // ---------------------------------------------------------------------
  // Card parsing
  // ---------------------------------------------------------------------

  /**
   * One match of a card pattern: the id group, and the second and third
   * groups, `""` when a group did not take part or matched nothing.
   */
  datatype CardMatch = CardMatch(id: string, second: string, third: string)

  /** `val.startswith(('http', '//', 'data:'))`. */
  predicate IsImageRef(v: string) {
    StartsWith(v, "http") || StartsWith(v, "//") || StartsWith(v, "data:")
  }

  /**
   * The preview of a card: a second group that looks like an image
   * address is the thumbnail, any other is the title; a third group
   * replaces the title.
   */
  function CardPreview(c: CardMatch): (r: VideoPreview)
    ensures r.videoId == c.id && r.durationText == "" && r.viewsText == ""
    ensures r.thumbnail == (if IsImageRef(c.second) then c.second else "")
    ensures r.title == (if c.third != "" then CleanTitle(c.third)
                        else if !IsImageRef(c.second) then CleanTitle(c.second)
                        else "")
  {
    var thumbnail := if c.second != "" && IsImageRef(c.second) then c.second else "";
    var title := if c.second != "" && !IsImageRef(c.second) then CleanTitle(c.second) else "";
    VideoPreview(c.id, if c.third != "" then CleanTitle(c.third) else title, thumbnail, "", "")
  }

  function PreviewIds(ps: seq<VideoPreview>): (ids: seq<string>)
    ensures |ids| == |ps| && forall i :: 0 <= i < |ps| ==> ids[i] == ps[i].videoId
  {
    seq(|ps|, i requires 0 <= i < |ps| => ps[i].videoId)
  }

  function CardIds(ms: seq<CardMatch>): (ids: seq<string>)
    ensures |ids| == |ms| && forall i :: 0 <= i < |ms| ==> ids[i] == ms[i].id
  {
    seq(|ms|, i requires 0 <= i < |ms| => ms[i].id)
  }

  /** The previews of the matches of one card pattern, one per id, from its first match. */
  function NewPreviews(ms: seq<CardMatch>): seq<VideoPreview>
  {
    if ms == [] then [] else AddCard(NewPreviews(ms[..|ms| - 1]), ms[|ms| - 1])
  }

  /** One more card match: its preview is appended unless its id is blank or already taken. */
  function AddCard(d: seq<VideoPreview>, c: CardMatch): (r: seq<VideoPreview>)
    ensures d <= r
    ensures r == d || (r == d + [CardPreview(c)] && c.id != "" && c.id !in PreviewIds(d))
    ensures c.id != "" && c.id !in PreviewIds(d) ==> r == d + [CardPreview(c)]
  {
    if c.id == "" || c.id in PreviewIds(d) then d else d + [CardPreview(c)]
  }

  lemma ElementsSnoc(s: seq<string>, x: string)
    ensures Elements(s + [x]) == Elements(s) + {x}
  {
  }

  lemma PreviewIdsSnoc(ps: seq<VideoPreview>, p: VideoPreview)
    ensures PreviewIds(ps + [p]) == PreviewIds(ps) + [p.videoId]
  {
  }

  /** The ids of the previews are the first occurrences of the card ids. */
  lemma {:induction false} NewPreviewsIds(ms: seq<CardMatch>)
    ensures PreviewIds(NewPreviews(ms)) == Dedup(CardIds(ms))
  {
    if ms != [] {
      var pre := ms[..|ms| - 1];
      var c := ms[|ms| - 1];
      NewPreviewsIds(pre);
      assert CardIds(ms)[..|ms| - 1] == CardIds(pre);
      assert Dedup(CardIds(ms)) == AddId(Dedup(CardIds(pre)), c.id);
      PreviewIdsSnoc(NewPreviews(pre), CardPreview(c));
    }
  }

  /** The previews of the first `i` matches begin the previews of all of them. */
  lemma {:induction false} NewPreviewsPrefix(ms: seq<CardMatch>, i: nat)
    requires i <= |ms|
    ensures NewPreviews(ms[..i]) <= NewPreviews(ms)
    decreases |ms| - i
  {
    if i < |ms| {
      NewPreviewsPrefix(ms, i + 1);
      NewPreviewsSnoc(ms, i);
      PrefixTrans(NewPreviews(ms[..i]), NewPreviews(ms[..i + 1]), NewPreviews(ms));
    } else {
      assert ms[..i] == ms;
    }
  }

  lemma PrefixTrans<T>(a: seq<T>, b: seq<T>, c: seq<T>)
    requires a <= b && b <= c
    ensures a <= c
  {
  }

  /**
   * The first match of each id is the one its preview is built from, and that
   * preview comes right after the previews of the matches before it.
   */
  lemma NewPreviewsFirstMatch(ms: seq<CardMatch>, k: nat)
    requires k < |ms| && ms[k].id != "" && ms[k].id !in CardIds(ms[..k])
    ensures |NewPreviews(ms[..k])| < |NewPreviews(ms)|
    ensures NewPreviews(ms)[|NewPreviews(ms[..k])|] == CardPreview(ms[k])
  {
    NewPreviewsAdds(ms, k);
    NewPreviewsPrefix(ms, k + 1);
    PrefixAt(NewPreviews(ms[..k]), CardPreview(ms[k]), NewPreviews(ms[..k + 1]), NewPreviews(ms));
  }

  /** A match whose id is new adds its preview. */
  lemma NewPreviewsAdds(ms: seq<CardMatch>, k: nat)
    requires k < |ms| && ms[k].id != "" && ms[k].id !in CardIds(ms[..k])
    ensures NewPreviews(ms[..k + 1]) == NewPreviews(ms[..k]) + [CardPreview(ms[k])]
  {
    NewPreviewsIds(ms[..k]);
    DedupHas(CardIds(ms[..k]), ms[k].id);
    NewPreviewsSnoc(ms, k);
  }

  /** An entry of a prefix is an entry of the whole. */
  lemma PrefixAt<T>(a: seq<T>, x: T, ax: seq<T>, b: seq<T>)
    requires ax == a + [x] && ax <= b
    ensures |a| < |b| && b[|a|] == x
  {
    assert ax[|a|] == x;
  }

  /** The previews of one more match. */
  lemma NewPreviewsSnoc(ms: seq<CardMatch>, k: nat)
    requires k < |ms|
    ensures NewPreviews(ms[..k + 1]) == AddCard(NewPreviews(ms[..k]), ms[k])
  {
    assert ms[..k + 1][..k] == ms[..k];
  }

  /** The loop of one card pattern stops once the list holds `limit` items, having added at least one. */
  function Cap(limit: int): int {
    if limit >= 1 then limit else 1
  }

  /** What one card pattern's loop collects. */
  function PatternCards(ms: seq<CardMatch>, limit: int): seq<VideoPreview> {
    Take(NewPreviews(ms), Cap(limit))
  }

  /** `_parse_video_cards_advanced`: the previews of the first card pattern that yields any. */
  function AdvancedCards(cards: seq<seq<CardMatch>>, limit: int): (r: seq<VideoPreview>)
    ensures |r| <= Cap(limit)
  {
    if cards == [] then []
    else
      var found := PatternCards(cards[0], limit);
      if found != [] then found else AdvancedCards(cards[1..], limit)
  }

  /** The loop reached the cap: what it holds is what the pattern collects. */
  lemma PatternCardsReached(ms: seq<CardMatch>, i: nat, limit: int)
    requires i <= |ms| && |NewPreviews(ms[..i])| == Cap(limit)
    ensures NewPreviews(ms[..i]) == PatternCards(ms, limit)
  {
    NewPreviewsPrefix(ms, i);
  }

  /** The fields of a card's preview, filled in from its groups. */
  method BuildCardPreview(c: CardMatch) returns (preview: VideoPreview)
    ensures preview == CardPreview(c)
  {
    preview := VideoPreview(c.id, "", "", "", "");
    if c.second != "" {
      var val := c.second;
      if IsImageRef(val) {
        preview := preview.(thumbnail := val);
      } else {
        preview := preview.(title := CleanTitle(val));
      }
    }
    if c.third != "" {
      preview := preview.(title := CleanTitle(c.third));
    }
  }

  /**
   * The loop over one card pattern's matches in `_parse_video_cards_advanced`:
   * each id not seen before gets a preview, and the loop stops once
   * `limit` previews are held. It starts from an empty list and an empty
   * seen set, as every pattern does: the loop only goes on to another
   * pattern when the previous one added nothing.
   */
  method CollectCards(ms: seq<CardMatch>, limit: int) returns (results: seq<VideoPreview>, seenIds: set<string>)
    ensures results == PatternCards(ms, limit) && seenIds == Elements(PreviewIds(results))
  {
    results, seenIds := [], {};
    var i := 0;
    while i < |ms|
      invariant 0 <= i <= |ms|
      invariant results == NewPreviews(ms[..i]) && seenIds == Elements(PreviewIds(results))
      invariant |results| < Cap(limit)
    {
      var c := ms[i];
      var vid := c.id;
      NewPreviewsSnoc(ms, i);
      assert vid in seenIds <==> vid in PreviewIds(results);
      if vid != "" && vid !in seenIds {
        seenIds := seenIds + {vid};
        var preview := BuildCardPreview(c);
        PreviewIdsSnoc(results, preview);
        ElementsSnoc(PreviewIds(results), vid);
        results := results + [preview];
        if |results| >= limit {
          PatternCardsReached(ms, i + 1, limit);
          return;
        }
      }
      i := i + 1;
    }
    assert ms[..i] == ms;
  }

  /**
   * `_parse_video_cards_advanced`: the card patterns in order, stopping
   * after the first one that gave any preview.
   */
  method ParseVideoCardsAdvanced(cards: seq<seq<CardMatch>>, limit: int) returns (r: seq<VideoPreview>)
    ensures r == AdvancedCards(cards, limit)
  {
    var results: seq<VideoPreview> := [];
    var k := 0;
    while k < |cards|
      invariant 0 <= k <= |cards|
      invariant results == []
      invariant AdvancedCards(cards[k..], limit) == AdvancedCards(cards, limit)
    {
      var seenIds;
      results, seenIds := CollectCards(cards[k], limit);
      assert cards[k..][1..] == cards[k + 1..];
      if results != [] {
        break;
      }
      k := k + 1;
    }
    r := results;
  }

  /** The cards of one pattern have distinct ids, in order of first occurrence, and at most `Cap(limit)` of them. */
  lemma PatternCardsIds(ms: seq<CardMatch>, limit: int)
    ensures |PatternCards(ms, limit)| <= Cap(limit)
    ensures Distinct(PreviewIds(PatternCards(ms, limit)))
    ensures PreviewIds(PatternCards(ms, limit)) == Take(Dedup(CardIds(ms)), Cap(limit))
  {
    var all := NewPreviews(ms);
    NewPreviewsIds(ms);
    DedupDistinct(CardIds(ms));
    var t := PatternCards(ms, limit);
    assert PreviewIds(t) == PreviewIds(all)[..|t|];
  }

  /** The index of the first card pattern with any preview, or the number of patterns. */
  function FirstYielding(cards: seq<seq<CardMatch>>): (k: nat)
    ensures k <= |cards|
    ensures forall j :: 0 <= j < k ==> NewPreviews(cards[j]) == []
    ensures k < |cards| ==> NewPreviews(cards[k]) != []
  {
    if cards == [] || NewPreviews(cards[0]) != [] then 0
    else
      var k := 1 + FirstYielding(cards[1..]);
      assert forall j :: 1 <= j < k ==> cards[j] == cards[1..][j - 1];
      k
  }

  /** The search ends at the first pattern with any preview, and finds nothing when none has one. */
  lemma {:induction false} AdvancedCardsFrom(cards: seq<seq<CardMatch>>, limit: int)
    ensures var k := FirstYielding(cards);
      AdvancedCards(cards, limit) == if k < |cards| then PatternCards(cards[k], limit) else []
  {
    if cards == [] {
    } else if NewPreviews(cards[0]) != [] {
      AdvancedCardsHit(cards, limit);
    } else {
      AdvancedCardsFrom(cards[1..], limit);
      AdvancedCardsSkip(cards, limit);
      var k' := FirstYielding(cards[1..]);
      if k' < |cards| - 1 {
        assert cards[k' + 1] == cards[1..][k'];
      }
    }
  }

  /** A first pattern with previews settles the search. */
  lemma AdvancedCardsHit(cards: seq<seq<CardMatch>>, limit: int)
    requires cards != [] && NewPreviews(cards[0]) != []
    ensures AdvancedCards(cards, limit) == PatternCards(cards[0], limit)
  {
    assert PatternCards(cards[0], limit) != [];
  }

  /** A first pattern with no previews passes the search on to the next. */
  lemma AdvancedCardsSkip(cards: seq<seq<CardMatch>>, limit: int)
    requires cards != [] && NewPreviews(cards[0]) == []
    ensures AdvancedCards(cards, limit) == AdvancedCards(cards[1..], limit)
  {
    assert PatternCards(cards[0], limit) == [];
  }

  // ---------------------------------------------------------------------
  // The list parser
  // ---------------------------------------------------------------------

  /** The preview built for one id of the page. */
  function IdPreview(lp: ListPatterns, html: string, id: string): VideoPreview {
    VideoPreview(id, TitleOf(lp, html, id), ThumbnailOf(lp, html, id), "", "")
  }

  function IdPreviews(lp: ListPatterns, html: string, ids: seq<string>): (ps: seq<VideoPreview>)
    ensures |ps| == |ids| && forall i :: 0 <= i < |ids| ==> ps[i] == IdPreview(lp, html, ids[i])
  {
    seq(|ids|, i requires 0 <= i < |ids| => IdPreview(lp, html, ids[i]))
  }

  lemma IdPreviewsSnoc(lp: ListPatterns, html: string, ids: seq<string>, i: nat)
    requires i < |ids|
    ensures IdPreviews(lp, html, ids[..i + 1]) == IdPreviews(lp, html, ids[..i]) + [IdPreview(lp, html, ids[i])]
  {
  }

  /**
   * `_parse_video_list`: a preview for each of the first `limit` list ids;
   * when that gives none, the card parser; at most `limit` of them.
   */
  function VideoList(lp: ListPatterns, html: string, limit: int): (r: seq<VideoPreview>)
    ensures limit >= 0 ==> |r| <= limit
  {
    var previews := IdPreviews(lp, html, Take(ListIds(html), limit));
    Take(if previews != [] then previews else AdvancedCards(lp.cards(html), limit), limit)
  }

  /** `_parse_video_list`. */
  method ParseVideoList(lp: ListPatterns, html: string, limit: int) returns (r: seq<VideoPreview>)
    ensures r == VideoList(lp, html, limit)
    ensures limit >= 0 ==> |r| <= limit
  {
    var videoIds: seq<string> := [];
    var seenIds: set<string> := {};
    videoIds, seenIds := CollectNewIds(SimpleIds(html), videoIds, seenIds, []);
    assert [] + SimpleIds(html) == SimpleIds(html);
    if videoIds == [] {
      videoIds, seenIds := CollectNewIds(DataIds(html), videoIds, seenIds, []);
      assert [] + DataIds(html) == DataIds(html);
      videoIds, seenIds := CollectNewIds(WatchIds(html), videoIds, seenIds, DataIds(html));
    }
    var ids := Take(videoIds, limit);
    var results: seq<VideoPreview> := [];
    var i := 0;
    while i < |ids|
      invariant 0 <= i <= |ids|
      invariant results == IdPreviews(lp, html, ids[..i])
    {
      var vid := ids[i];
      var preview := VideoPreview(vid, "", "", "", "");
      var thumbnail := ExtractThumbnailForId(lp, html, vid);
      var title := ExtractTitleForId(lp, html, vid);
      preview := preview.(thumbnail := thumbnail);
      preview := preview.(title := title);
      IdPreviewsSnoc(lp, html, ids, i);
      results := results + [preview];
      i := i + 1;
    }
    assert ids[..i] == ids;
    if results == [] {
      results := ParseVideoCardsAdvanced(lp.cards(html), limit);
    }
    r := Take(results, limit);
  }

  /** The ids of the previews a list page gives are distinct. */
  lemma VideoListDistinct(lp: ListPatterns, html: string, limit: int)
    ensures Distinct(PreviewIds(VideoList(lp, html, limit)))
  {
    var ids := Take(ListIds(html), limit);
    var previews := IdPreviews(lp, html, ids);
    var r := VideoList(lp, html, limit);
    if previews != [] {
      ListIdsAre(html);
      assert PreviewIds(r) == ids[..|r|];
    } else {
      AdvancedCardsFrom(lp.cards(html), limit);
      var k := FirstYielding(lp.cards(html));
      if k < |lp.cards(html)| {
        PatternCardsIds(lp.cards(html)[k], limit);
        var t := PatternCards(lp.cards(html)[k], limit);
        assert PreviewIds(r) == PreviewIds(t)[..|r|];
      }
    }
  }

  /**
   * When the page has list ids and `limit` is positive, the previews are
   * those of the first `limit` ids, in order, and the card parser is not used.
   */
  lemma VideoListOfIds(lp: ListPatterns, html: string, limit: int)
    requires ListIds(html) != [] && limit > 0
    ensures PreviewIds(VideoList(lp, html, limit)) == Take(ListIds(html), limit)
    ensures forall i :: 0 <= i < |VideoList(lp, html, limit)| ==>
              VideoList(lp, html, limit)[i] == IdPreview(lp, html, ListIds(html)[i])
  {
    var ids := Take(ListIds(html), limit);
    assert |ids| > 0;
    var previews := IdPreviews(lp, html, ids);
    assert VideoList(lp, html, limit) == previews;
  }

  // ---------------------------------------------------------------------
  // The home page: three tiers
  // ---------------------------------------------------------------------

  /**
   * The patterns of the home page: the captures of each of the four
   * embedded-JSON patterns, of the `__NUXT_DATA__` script pattern and of
   * each of the three `__NUXT__` assignment patterns; the JSON reader; and
   * the list patterns.
   */
  datatype HomePatterns = HomePatterns(
    embedded: string -> seq<seq<string>>,
    nuxtData: string -> seq<string>,
    nuxt: string -> seq<seq<string>>,
    load: Loader,
    list: ListPatterns)

  /** What `_parse_embedded_json` gives for a page. */
  function EmbeddedTier(h: HomePatterns, html: string, limit: int): seq<VideoPreview> {
    var frags := Flatten(h.embedded(html));
    if limit >= 0 then Take(AllVideos(frags, h.load), limit) else Take(FirstYield(frags, h.load), limit)
  }

  /** What `_parse_nuxt_payload` gives for a page. */
  function NuxtTier(h: HomePatterns, html: string, limit: int): seq<VideoPreview> {
    Take(AllVideos(h.nuxtData(html), h.load) + AllVideos(FixAll(Flatten(h.nuxt(html))), h.load), limit)
  }

  /**
   * `get_latest`: nothing when the home page cannot be fetched; otherwise
   * the embedded JSON, then the Nuxt payload only if that gave nothing,
   * then the list parser only if both gave nothing.
   */
  function Latest(h: HomePatterns, fetch: Fetcher, limit: int): (r: seq<VideoPreview>)
    ensures fetch(BASE_URL) == "" ==> r == []
    ensures limit >= 0 ==> |r| <= limit
  {
    var html := fetch(BASE_URL);
    if html == "" then []
    else if EmbeddedTier(h, html, limit) != [] then EmbeddedTier(h, html, limit)
    else if NuxtTier(h, html, limit) != [] then NuxtTier(h, html, limit)
    else VideoList(h.list, html, limit)
  }

  /** `get_latest`: the home page read by the three parsers in turn. */
  method GetLatest(h: HomePatterns, fetch: Fetcher, limit: int) returns (r: seq<VideoPreview>)
    ensures r == Latest(h, fetch, limit)
    ensures limit >= 0 ==> |r| <= limit
  {
    var html := fetch(BASE_URL);
    if html == "" {
      return [];
    }
    r := ParseEmbeddedJson(h.embedded(html), h.load, limit);
    if r != [] {
      return;
    }
    r := ParseNuxtPayload(h.nuxtData(html), h.nuxt(html), h.load, limit);
    if r != [] {
      return;
    }
    r := ParseVideoList(h.list, html, limit);
  }

  /**
   * A later tier is consulted only when every earlier one gave nothing:
   * whatever the home page yields comes from the first tier that gives
   * anything.
   */
  lemma LatestTierOrder(h: HomePatterns, fetch: Fetcher, limit: int)
    requires fetch(BASE_URL) != ""
    ensures var html := fetch(BASE_URL);
      var e := EmbeddedTier(h, html, limit);
      var n := NuxtTier(h, html, limit);
      (e != [] ==> Latest(h, fetch, limit) == e)
      && (e == [] && n != [] ==> Latest(h, fetch, limit) == n)
      && (e == [] && n == [] ==> Latest(h, fetch, limit) == VideoList(h.list, html, limit))
  {
  }

  // ---------------------------------------------------------------------
  // Search
  // ---------------------------------------------------------------------

  /** The previews of a search page: none when it cannot be fetched, else the list parser's. */
  function SearchResult(lp: ListPatterns, html: string, limit: int): seq<VideoPreview> {
    if html == "" then [] else VideoList(lp, html, limit)
  }

  /**
   * `search`: the parameters query, genre, sort (unless empty or
   * `latest`) and page (above 1) joined by `&` after `SEARCH_URL?`, or the
   * bare site when there are none; the page fetched and list-parsed.
   */
  method Search(lp: ListPatterns, fetch: Fetcher, query: string, genre: string, sort: string, page: int, limit: int)
    returns (r: seq<VideoPreview>)
    ensures r == SearchResult(lp, fetch(BuildSearchUrl(query, genre, sort, page)), limit)
  {
    var params: seq<string> := [];
    if query != "" {
      params := params + ["query=" + query];
    }
    if genre != "" {
      params := params + ["genre=" + genre];
    }
    if sort != "" && sort != "latest" {
      params := params + ["sort=" + sort];
    }
    if page > 1 {
      params := params + ["page=" + IntToString(page)];
    }
    assert params == SearchParams(query, genre, sort, page);
    var url := if params != [] then SEARCH_URL + "?" + Join(params, "&") else BASE_URL;
    assert SEARCH_URL + "?" == BASE_URL + "/search?";
    assert url == BuildSearchUrl(query, genre, sort, page);
    var html := fetch(url);
    if html == "" {
      return [];
    }
    r := ParseVideoList(lp, html, limit);
  }

  /** `get_by_genre`: a search by genre alone, in the default order. */
  method GetByGenre(lp: ListPatterns, fetch: Fetcher, genre: string, page: int, limit: int)
    returns (r: seq<VideoPreview>)
    ensures r == SearchResult(lp, fetch(BuildSearchUrl("", genre, "latest", page)), limit)
  {
    r := Search(lp, fetch, "", genre, "latest", page, limit);
  }

  // ---------------------------------------------------------------------
  // Page iteration
  // ---------------------------------------------------------------------

  /** Page `page` of the latest list: a search with no query, genre or sort. */
  function LatestPage(lp: ListPatterns, fetch: Fetcher, page: int, perPage: int): seq<VideoPreview> {
    SearchResult(lp, fetch(BuildSearchUrl("", "", "latest", page)), perPage)
  }

  /** The previews of pages `page` to `maxPages`, up to the first page that gives none. */
  function PagesFrom(lp: ListPatterns, fetch: Fetcher, page: int, maxPages: int, perPage: int): (r: seq<VideoPreview>)
    ensures page > maxPages ==> r == []
    ensures r != [] ==> LatestPage(lp, fetch, page, perPage) != [] && LatestPage(lp, fetch, page, perPage) <= r
    decreases maxPages - page + 1
  {
    if page > maxPages then []
    else
      var videos := LatestPage(lp, fetch, page, perPage);
      if videos == [] then [] else videos + PagesFrom(lp, fetch, page + 1, maxPages, perPage)
  }

  /** `iter_latest`: every preview of pages 1 to `maxPages` in order, stopping at the first empty page. */
  method IterLatest(lp: ListPatterns, fetch: Fetcher, maxPages: int, perPage: int) returns (yielded: seq<VideoPreview>)
    ensures yielded == PagesFrom(lp, fetch, 1, maxPages, perPage)
  {
    yielded := [];
    var page := 1;
    while page <= maxPages
      invariant page >= 1
      invariant yielded + PagesFrom(lp, fetch, page, maxPages, perPage) == PagesFrom(lp, fetch, 1, maxPages, perPage)
      decreases maxPages - page + 1
    {
      var videos := Search(lp, fetch, "", "", "latest", page, perPage);
      if videos == [] {
        break;
      }
      AppendAssoc(yielded, videos, PagesFrom(lp, fetch, page + 1, maxPages, perPage));
      yielded := yielded + videos;
      page := page + 1;
    }
    assert yielded + [] == yielded;
  }

  /** The first page that comes back empty ends the iteration: later pages are never read. */
  lemma {:induction false} PagesStopAtEmpty(lp: ListPatterns, fetch: Fetcher, page: int, k: int, maxPages: int, perPage: int)
    requires page <= k <= maxPages && LatestPage(lp, fetch, k, perPage) == []
    ensures PagesFrom(lp, fetch, page, maxPages, perPage) == PagesFrom(lp, fetch, page, k - 1, perPage)
    decreases k - page
  {
    if page < k && LatestPage(lp, fetch, page, perPage) != [] {
      PagesStopAtEmpty(lp, fetch, page + 1, k, maxPages, perPage);
    }
  }

  /** `perPage` previews for each of pages `page` to `maxPages`. */
  function PageBudget(perPage: nat, page: int, maxPages: int): nat
    decreases maxPages - page + 1
  {
    if page > maxPages then 0 else perPage + PageBudget(perPage, page + 1, maxPages)
  }

  lemma {:induction false} PagesWithinBudget(lp: ListPatterns, fetch: Fetcher, page: int, maxPages: int, perPage: nat)
    ensures |PagesFrom(lp, fetch, page, maxPages, perPage)| <= PageBudget(perPage, page, maxPages)
    decreases maxPages - page + 1
  {
    if page <= maxPages {
      var videos := LatestPage(lp, fetch, page, perPage);
      assert |videos| <= perPage;
      if videos != [] {
        PagesWithinBudget(lp, fetch, page + 1, maxPages, perPage);
      }
    }
  }

  lemma {:induction false} PageBudgetIs(perPage: nat, page: int, maxPages: int)
    ensures PageBudget(perPage, page, maxPages) == perPage * (if page <= maxPages then maxPages - page + 1 else 0)
    decreases maxPages - page + 1
  {
    if page <= maxPages {
      PageBudgetIs(perPage, page + 1, maxPages);
      assert perPage * (maxPages - page + 1) == perPage * (maxPages - page) + perPage;
    }
  }

  /** With a non-negative page size, the iteration yields at most that many previews per page. */
  lemma PagesBound(lp: ListPatterns, fetch: Fetcher, maxPages: int, perPage: nat)
    ensures |PagesFrom(lp, fetch, 1, maxPages, perPage)| <= perPage * (if maxPages >= 1 then maxPages else 0)
  {
    PagesWithinBudget(lp, fetch, 1, maxPages, perPage);
    PageBudgetIs(perPage, 1, maxPages);
  }

  // ---------------------------------------------------------------------
  // Random pick
  // ---------------------------------------------------------------------

  /** How many random ids `get_random` tries when the home page gives no list. */
  const RandomAttempts: nat := 5

  /** The inclusive id range of each attempt: two newer, two middle, then older ids. */
  function AttemptRange(attempt: nat): (r: (int, int))
    ensures 10000 <= r.0 < r.1 <= 200000
    ensures attempt < 2 ==> r.0 == 100000
    ensures 2 <= attempt < 4 ==> r.1 == 100000
    ensures attempt >= 4 ==> r.1 == 50000
  {
    if attempt < 2 then (100000, 200000)
    else if attempt < 4 then (50000, 100000)
    else (10000, 50000)
  }

  /** `str(random_id)` of each draw. */
  function DrawIds(draws: seq<int>): (ids: seq<string>)
    ensures |ids| == |draws| && forall a :: 0 <= a < |draws| ==> ids[a] == IntToString(draws[a])
  {
    seq(|draws|, a requires 0 <= a < |draws| => IntToString(draws[a]))
  }

  /** A fetched video whose title is not empty. */
  predicate HasTitle(t: Option<string>) {
    t.Some? && t.value != ""
  }

  /** The first id whose video can be fetched and has a title. */
  function FirstTitled(ids: seq<string>, titleOf: string -> Option<string>): (r: Option<string>)
    ensures r.Some? ==> r.value in ids && HasTitle(titleOf(r.value))
  {
    if ids == [] then None
    else if HasTitle(titleOf(ids[0])) then Some(ids[0])
    else FirstTitled(ids[1..], titleOf)
  }

  /** `FirstTitled` is the first id with a titled video, and `None` exactly when there is none. */
  lemma {:induction false} FirstTitledIs(ids: seq<string>, titleOf: string -> Option<string>) returns (k: nat)
    ensures k <= |ids|
    ensures forall j :: 0 <= j < k ==> !HasTitle(titleOf(ids[j]))
    ensures k < |ids| ==> HasTitle(titleOf(ids[k])) && FirstTitled(ids, titleOf) == Some(ids[k])
    ensures k == |ids| ==> FirstTitled(ids, titleOf) == None
  {
    if ids == [] {
      k := 0;
    } else if HasTitle(titleOf(ids[0])) {
      k := 0;
    } else {
      var k' := FirstTitledIs(ids[1..], titleOf);
      k := k' + 1;
      forall j | 0 <= j < k ensures !HasTitle(titleOf(ids[j])) {
        if j > 0 {
          assert ids[j] == ids[1..][j - 1];
        }
      }
    }
  }

  /** Draws within the attempt ranges only ever give an id between 10000 and 200000. */
  lemma RandomIdInRange(draws: seq<int>, titleOf: string -> Option<string>)
    requires forall a :: 0 <= a < |draws| ==> AttemptRange(a).0 <= draws[a] <= AttemptRange(a).1
    ensures FirstTitled(DrawIds(draws), titleOf).Some? ==>
      var id := FirstTitled(DrawIds(draws), titleOf).value;
      IsDigitString(id) && 10000 <= DecimalValue(id) <= 200000
  {
    var k := FirstTitledIs(DrawIds(draws), titleOf);
    if k < |draws| {
      var n: nat := draws[k];
      assert DrawIds(draws)[k] == NatToString(n);
      DecimalValueOfNatToString(n);
    }
  }

  /**
   * `get_random`: a preview picked from the home page's list (`choice` is
   * the index `random.choice` takes) and its video fetched; when the list
   * is empty, the drawn ids in turn until one gives a video with a title.
   * The result is the id of the video returned; `titleOf` gives the title
   * of a fetched video, `None` when the fetch fails.
   */
  method GetRandom(h: HomePatterns, fetch: Fetcher, choice: int, draws: seq<int>, titleOf: string -> Option<string>)
    returns (r: Option<string>)
    requires Latest(h, fetch, 20) != [] ==> 0 <= choice < |Latest(h, fetch, 20)|
    requires |draws| == RandomAttempts
    requires forall a :: 0 <= a < |draws| ==> AttemptRange(a).0 <= draws[a] <= AttemptRange(a).1
    ensures var latest := Latest(h, fetch, 20);
      latest != [] ==> r == (if titleOf(latest[choice].videoId).Some? then Some(latest[choice].videoId) else None)
    ensures Latest(h, fetch, 20) == [] ==> r == FirstTitled(DrawIds(draws), titleOf)
  {
    var videos := GetLatest(h, fetch, 20);
    if videos != [] {
      var preview := videos[choice];
      var video := titleOf(preview.videoId);
      return if video.Some? then Some(preview.videoId) else None;
    }
    r := TryDraws(draws, titleOf);
  }

  /** The fallback loop of `get_random`: the drawn ids tried in turn until one gives a titled video. */
  method TryDraws(draws: seq<int>, titleOf: string -> Option<string>) returns (r: Option<string>)
    ensures r == FirstTitled(DrawIds(draws), titleOf)
  {
    var attempt := 0;
    while attempt < |draws|
      invariant 0 <= attempt <= |draws|
      invariant FirstTitled(DrawIds(draws), titleOf) == FirstTitled(DrawIds(draws)[attempt..], titleOf)
    {
      var randomId := IntToString(draws[attempt]);
      var video := titleOf(randomId);
      assert DrawIds(draws)[attempt..][1..] == DrawIds(draws)[attempt + 1..];
      if video.Some? && video.value != "" {
        return Some(randomId);
      }
      attempt := attempt + 1;
    }
    r := None;
  }
}
