# hanime1.me client core, in Dafny

A model of the parsing core of the `astrbot_plugin_hanime` plugin, a chat-bot
client for the hanime1.me video site. It covers three layers.

- **Primitives** (`modules/utils.py`, in `utils.dfy`):
  - clock-duration parsing and formatting;
  - view-count parsing with the 万/萬 factor, and the branch choice of view formatting;
  - the `clean_html` pipeline;
  - filename sanitising;
  - video-id extraction;
  - search-URL assembly.
- **Listing and embedded data** (`modules/client.py`, in `embedded.dfy` and `client.dfy`):
  - the depth-bounded walk over decoded JSON;
  - the `undefined` → `null` rewrite;
  - the embedded-JSON and Nuxt payload parsers with their limit and skip rules;
  - the HTML list parser with its id de-duplication, and the card parser behind it;
  - the three-tier order of `get_latest`;
  - `search` and `get_by_genre`;
  - the page iteration of `iter_latest`;
  - the attempt schedule of `get_random`.
- **Detail page** (`modules/video.py`, in `videos.dfy`):
  - the first-match chains for title, views, date, duration, thumbnail and uploader;
  - the tag set, with span removal, length cap, blacklist and sorting;
  - the media-URL candidate search;
  - the `Video` record that `_parse_html` fills in field by field;
  - `VideoPreview` and its derived properties.

Supporting files:
- `wrappers.dfy`: `Option`.
- `consts.dfy`: `BASE_URL`, `VIDEO_URL_PREFIX` and `SEARCH_URL` of `modules/consts.py`.
- `text.dfy`: Python's `str.strip`, `str.replace`, `str.split`, `str.join`, `int()` and slicing.
- `sorting.dfy`: Python's string order and `sorted` on a set.
- `scan.dfy`: exact scanners for the few regular expressions simple enough to write out, and the first-match chain.

Every other regular expression is an abstract matcher, `string -> Option<string>`, standing for the group the code reads. Pattern lists are sequences of matchers, tried in the source's order. The network is a `Fetcher` (`string -> string`, where `""` is a failed fetch). `json.loads` is a `Loader` (`string -> Option<Json>`, where `None` is a decode error). The random draws of `get_random` are parameters.

Where the source loops or mutates, the model does too:
- `Video` is a class whose `ParseHtml` assigns its eight detail fields.
- The loops of `_parse_video_list`, `_extract_thumbnail_for_id`, `_extract_title_for_id`, `_parse_video_cards_advanced`, `_parse_embedded_json`, `_parse_nuxt_payload`, `iter_latest`, `get_random`, `_extract_tags` and `_extract_video_url` are methods with loop invariants. Each is proved against a recursive specification function, and the properties are then proved about that function as lemmas.
- Two groups of loops are recursive functions instead. The pattern loops of `_extract_views`, `_extract_duration` and `_extract_thumbnail`, which return the first pattern that matches, are the first-match chain `Scan.FirstMatch`. The two loops of `_extract_videos_from_json`, over a dict's values and over a list's items, are the mutually recursive `EmbeddedJson.VideosFromFields` and `EmbeddedJson.VideosFromItems`.

## Model

| member | source | states |
|---|---|---|
| Utils.Pad2 | modules/utils.py:84-86 | `{n:02d}` is a digit string of at least two characters that reads back as `n` |
| Utils.FormatDuration | modules/utils.py:66-86 | a non-positive duration is `00:00`; every result has at least five characters and begins and ends with a digit |
| Utils.ParseDuration | modules/utils.py:89-119 | the empty text, and any text that is not two or three colon-separated fields, parse to 0 |
| Utils.ParseDurationTwoFields | modules/utils.py:107-112 | two digit fields `m:s` parse to `m * 60 + s` |
| Utils.ParseDurationThreeFields | modules/utils.py:113-115 | three digit fields `h:m:s` parse to `h * 3600 + m * 60 + s` |
| Utils.ParseDurationExampleMinutes | modules/utils.py:94 | `"02:59"` parses to 179 |
| Utils.ParseDurationExampleHours | modules/utils.py:95 | `"1:02:59"` parses to 3779 |
| Utils.ParseDurationExampleLong | modules/utils.py:96 | `"02:59:00"` parses to 10740 |
| Utils.ParseDurationRejectsFields | modules/utils.py:116-117 | four fields `"1:2:3:4"` parse to 0 |
| Utils.ParseDurationOneField | modules/utils.py:107-117 | any text without `:` is one field and parses to 0 |
| Utils.ParseDurationRejectsText | modules/utils.py:108-117 | text with no colon, such as `"abc"`, is one field and parses to 0 |
| Utils.ParseDurationRejectsField | modules/utils.py:110-119 | two or three fields, one of which `int()` rejects, parse to 0 rather than raising |
| Utils.ParseDurationRejectsFieldExample | modules/utils.py:110-119 | `"ab:12"` parses to 0, because `int("ab")` fails |
| Utils.ClockParts | modules/utils.py:79-83 | hours, minutes below 60 and seconds below 60 recompose the input; hours are positive exactly from 3600 on |
| Utils.FormatDurationShape | modules/utils.py:76-86 | non-positive input gives `"00:00"`; three fields exactly from one hour on, else two; every field at least two digits; minutes and seconds below 60 |
| Utils.ParseFormatDuration | modules/utils.py:66-119 | `parse_duration(format_duration(x)) == x` for every `x >= 0` |
| Utils.ViewRun | modules/utils.py:34 | the `[\d,.]+` search gives a non-empty run of that class, holding a digit only if the text does |
| Utils.DropCommas | modules/utils.py:37 | the result has no comma, and a digit only if the input has one |
| Utils.DropCommasIsReplace | modules/utils.py:37 | the comma filter is `replace(',', '')` |
| Utils.ParseViewsNoDigit | modules/utils.py:24-35 | text with no digit (including the empty text) reads as 0 views |
| Utils.ParseViewsOfDigits | modules/utils.py:28-43 | a digit string reads as its value, and with 万 after it as ten thousand times that value |
| Utils.ParseViewsOfWanDecimal | modules/utils.py:31-43 | `w.f万` reads as the exact decimal times 10000, truncated |
| Utils.ParseViewsOfCommaGroups | modules/utils.py:37-43 | `a,b` reads as the number the digits of `a` and `b` make together |
| Utils.ParseViewsOfTwoDots | modules/utils.py:39-45 | a run with two dots (`1.2.3`) is rejected by `float()` and reads as 0 |
| Utils.FormatViewsSuffix | modules/utils.py:58-63 | the suffix is 万 exactly from 10000 on, `k` exactly between 1000 and 9999; below 1000 the plain number |
| Utils.ParseFormatViewsWan | modules/utils.py:24-63 | from 10000 on, the formatted count reads back within 500 of the count, either way |
| Utils.ParseFormatViewsThousands | modules/utils.py:24-63 | between 1000 and 9999 the `k` is not read back: the formatted count reads as its thousands, at least `views / 1000` and at most `(views + 50) / 1000` |
| Utils.ParseFormatViewsSmall | modules/utils.py:24-63 | below 1000 the formatted count reads back exactly |
| Utils.ParseViews | modules/utils.py:13-45 | a parsed view count is never negative |
| Utils.ParseViewsLabelled | modules/utils.py:24-43 | for a label free of `[\d,.]`, a run of that class and any text after it (no whitespace at either end), the run is read, with the factor of ten thousand exactly when 万 or 萬 occurs anywhere |
| Utils.ParseViewsStrip | modules/utils.py:24-27 | the text is stripped before anything else, so padding does not change the count |
| Utils.ParseViewsNineSevenWan | modules/utils.py:24-43 | `9.7` under any label, with 万 or 萬 in the text, reads as 97000 |
| Utils.ParseViewsWanExample | modules/utils.py:18 | `9.7万次` reads as 97000 |
| Utils.ParseViewsTraditionalWanExample | modules/utils.py:19 | `9.7萬次` reads as 97000 |
| Utils.ParseViewsPlainExample | modules/utils.py:20 | `97000次` reads as 97000 |
| Utils.ParseViewsCommaExample | modules/utils.py:21 | `9,700次` reads as 9700 |
| Utils.ParseViewsBareWanExample | modules/utils.py:22 | `9.7万` reads as 97000 |
| Utils.ParseViewsLabelledExample | modules/utils.py:24-43 | the labelled `觀看次數：9.7萬次` reads as 97000 |
| Utils.FormatViews | modules/utils.py:48-63 | the formatted count is never empty |
| Utils.ReplaceIllegal | modules/utils.py:133-134 | same length; each illegal character (`<`, `>`, `:`, `"`, `/`, backslash, pipe, `?`, `*`) becomes `_`, every other character is kept |
| Utils.DropControl | modules/utils.py:137 | no control character remains; legal text stays legal; text without control characters is kept |
| Utils.SanitizeFilename | modules/utils.py:122-143 | no illegal and no control character, and at most 200 characters |
| Utils.SanitizeFilenameKeeps | modules/utils.py:122-143 | a name that is already legal, short and stripped is returned unchanged |
| Utils.SanitizeFilenameIdempotent | modules/utils.py:122-143 | sanitising twice is sanitising once |
| Utils.StripMarkupIs | modules/utils.py:268-272 | script blocks, then style blocks, then every tag are removed, in that order |
| Utils.DecodeEntitiesIs | modules/utils.py:275-280 | the six entity replacements run in the source's order |
| Utils.CleanStepsAre | modules/utils.py:264-285 | the pipeline is markup removal, entity decoding, whitespace collapse, then strip |
| Utils.CleanStepsShape | modules/utils.py:282-285 | the pipeline's output has no whitespace at its ends, no two neighbouring whitespace characters, and only plain spaces |
| Utils.CleanHtml | modules/utils.py:254-285 | empty input gives `""`; the output has no whitespace at either end |
| Utils.CleanHtmlSpaces | modules/utils.py:283-285 | the output never has two neighbouring whitespace characters, and its only whitespace is the plain space |
| Utils.CleanHtmlIs | modules/utils.py:264-285 | non-empty input goes through every step of the pipeline |
| Utils.StripMarkupPlain | modules/utils.py:268-272 | text without `<` has no markup to remove |
| Utils.DecodeEntitiesAmp | modules/utils.py:275-280 | `&amp;` is decoded after `&lt;`/`&gt;`/`&nbsp;` and only once: `p&amp;x` becomes `p&x` |
| Utils.CleanHtmlAmp | modules/utils.py:264-285 | `&amp;` before plain text cleans to `&` and that text, even when it then reads as another entity |
| Utils.CleanHtmlAmpLt | modules/utils.py:276-278 | `"&amp;lt;"` cleans to `"&lt;"`, not to `"<"` |
| Utils.CleanHtmlScriptAndTags | modules/utils.py:264-285 | a script block is dropped with its body, a tag pair around text removed and `&amp;` decoded (`<script>x</script><b>Hi</b>&amp;there` → `Hi&there`) |
| Utils.ExtractVideoId | modules/utils.py:288-319 | whatever is returned is a digit string; the lemmas below characterise which one, and when there is none |
| Utils.ExtractVideoIdOfId | modules/utils.py:298-305 | an all-digit id padded with whitespace is returned stripped |
| Utils.ExtractVideoIdOfUrl | modules/utils.py:307-309 | the id of a watch-page URL is recovered from it |
| Utils.ExtractVideoIdEmpty | modules/utils.py:298-299 | the empty input gives no id |
| Utils.ExtractVideoIdNone | modules/utils.py:298-319 | no id exactly when the input is empty, or its stripped text is not all digits and has no digit after `watch?v=`, none after `/video/` and no run of four digits |
| Utils.ExtractVideoIdNoDigit | modules/utils.py:298-319 | a text without any digit gives no id |
| Utils.ExtractVideoIdWatch | modules/utils.py:307-309 | when the leftmost `watch?v=` followed by a digit sits at position i, the id is the digits right after that marker |
| Utils.ExtractVideoIdVideoPath | modules/utils.py:311-313 | with no `watch?v=` followed by a digit, the id is the digits after the leftmost `/video/` followed by a digit |
| Utils.ExtractVideoIdLongRun | modules/utils.py:315-317 | with neither marker followed by a digit, the id is the whole digit run starting at the leftmost place with four digits in a row |
| Utils.ExtractVideoIdShortNumber | modules/utils.py:315-319 | a number of fewer than four digits with no marker, as in `ep 12`, gives no id |
| Utils.BuildSearchUrlBare | modules/utils.py:322-353 | the bare site is returned exactly when query and genre are empty, sort is empty or `latest`, and page is at most 1 |
| Utils.BuildSearchUrlSplits | modules/utils.py:342-353 | otherwise the URL is `BASE_URL/search?` followed by the parameters query, genre, sort, page in that order, which splitting at `&` gives back |
| Utils.SearchParams | modules/utils.py:340-351 | at most four parameters, and none exactly when the query and genre are empty, the sort is empty or `latest` and the page is at most 1 |
| Utils.BuildSearchUrl | modules/utils.py:322-353 | every URL built starts with `BASE_URL` |
| Text.Strip | modules/utils.py:107 | `strip()`: no whitespace left at either end, never longer |
| Text.StripIdempotent | modules/utils.py:143 | stripping twice is stripping once |
| Text.StripIsSlice | modules/utils.py:143 | the stripped text is the slice between the leading and trailing whitespace |
| Text.ParseIntOfDigits | modules/utils.py:111 | `int()` reads a digit string as its decimal value |
| Text.JoinSplit | modules/utils.py:107 | joining the fields of a split with the separator gives back the text |
| Text.SplitJoin | modules/client.py:259 | splitting a join whose parts lack the separator gives back the parts |
| Text.Take | modules/client.py:426 | `s[:n]` is a prefix of `s` of length `min(n, len)` for `n >= 0`, counted from the end for negative `n` |
| Scan.FirstMatchNone | modules/video.py:166-171 | a pattern chain yields nothing exactly when none of its patterns matches |
| Scan.FirstMatchAppend | modules/video.py:145-169 | two chains tried one after the other behave as one chain |
| Scan.RemoveBlocksBlock | modules/utils.py:268 | a whole `<script ...>...</script>` block at the start is deleted with its body |
| Scan.RemoveTagsTag | modules/utils.py:272 | a tag `<name>` at the start is deleted |
| Scan.CollapseSpace | modules/utils.py:283 | every run of whitespace becomes one plain space; the text is empty, or starts with whitespace, exactly when the input is |
| Scan.FindIds | modules/client.py:385-407 | every id a link scan finds is a digit string |
| Scan.DigitsAfter | modules/utils.py:308-313 | the digits after a marker form a digit string |
| Scan.LongDigitRun | modules/utils.py:316-317 | the run found has at least four digits |
| Scan.DigitsAfterAt | modules/utils.py:308-313 | the search returns the maximal digit run after the leftmost occurrence of the marker that a digit follows |
| Scan.DigitsAfterNone | modules/utils.py:308-313 | the search fails exactly when no occurrence of the marker is followed by a digit |
| Scan.LongDigitRunAt | modules/utils.py:316-317 | the `\d{4,}` search returns the maximal digit run starting at the leftmost place with four digits in a row |
| Scan.LongDigitRunNone | modules/utils.py:316-317 | the `\d{4,}` search fails exactly when the text has no four digits in a row |
| Scan.ClockToken | modules/video.py:196-198 | the bare clock token found has the shape `H:MM`, `HH:MM`, `H:MM:SS` or `HH:MM:SS` |
| Sorting.SortSet | modules/video.py:316 | `sorted(list(tags))` is strictly increasing and holds exactly the set's elements |
| Sorting.SortedUnique | modules/video.py:316 | a strictly sorted list is determined by its elements |
| Videos.VideoPreview.Url | modules/video.py:439-441 | the URL starts with `VIDEO_URL_PREFIX`, and `extract_video_id` gives a digit id back from it |
| Videos.WatchUrl | modules/video.py:38-41 | the watch URL starts with `VIDEO_URL_PREFIX`, and `extract_video_id` gives a digit id back from it |
| Videos.VideoPreview.Duration | modules/video.py:443-445 | clock text reads as a non-negative number of seconds |
| Videos.VideoPreview.Views | modules/video.py:447-449 | a digit string reads as its value |
| Videos.VideoPreview.ToDict | modules/video.py:468-476 | the dict's `url` is the preview's URL, and rebuilding a preview from the dict gives the same preview |
| Videos.PreviewDurationOfFormatted | modules/video.py:443-445 | duration text produced by `format_duration` reads back as the same seconds |
| Videos.PreviewDictKeepsText | modules/video.py:468-476 | `to_dict` keeps the raw duration and view texts, unparsed |
| Videos.Cleaned | modules/video.py:133 | cleaned match text is stripped and has no line break |
| Videos.RemoveSiteSuffix | modules/video.py:136-141 | the result is a prefix of the title; it contains no start of the suffix, and it is cut exactly where the leftmost suffix starts |
| Videos.RemoveSiteSuffixOf | modules/video.py:136-141 | a title followed by `-` or a pipe between optional spaces and then `Hanime1...` is cut back to the title |
| Videos.RemoveSiteSuffixStripped | modules/video.py:136-141 | removing the suffix from stripped text leaves stripped text |
| Videos.ExtractTitle | modules/video.py:128-143 | the title is stripped text, and `""` when neither the heading nor `<title>` matches |
| Videos.ExtractTitleHeadingWins | modules/video.py:130-133 | once the heading matches, the `<title>` pattern plays no part |
| Videos.ExtractViews | modules/video.py:145-171 | 0 when no view pattern matches |
| Videos.ExtractViewsLabelled | modules/video.py:145-170 | the group 0 of the first view pattern that matches, a label and a run, is read through the run, with the 万 factor exactly when 万 or 萬 occurs in it |
| Videos.ExtractViewsWan | modules/video.py:145-170 | a labelled match holding 万 or 萬 is read through its first run with the factor of ten thousand; a digit run `d` gives `d * 10000` |
| Videos.ExtractViewsLabelledExample | modules/video.py:147-150 | a first match `觀看次數：9.7万次` gives 97000 views |
| Videos.ExtractViewsEarlierWins | modules/video.py:145-169 | an earlier view pattern that matches hides every later one |
| Videos.ExtractUploadDate | modules/video.py:173-179 | the captured date, or `""` when the pattern does not match |
| Videos.ExtractDuration | modules/video.py:181-200 | when the labelled patterns capture clock text, the duration is never negative |
| Videos.ExtractDurationChain | modules/video.py:181-200 | the three labelled patterns, then the bare clock token, form one chain tried in that order |
| Videos.ExtractThumbnail | modules/video.py:202-230 | `""` when no pattern matches; the first pattern's capture when it matches |
| Videos.ExtractUploader | modules/video.py:232-265 | an empty page and a page where nothing matches give `未知上传者`; any other answer is stripped text |
| Videos.UploaderOf | modules/video.py:240-265 | with no artist name, no share-title bracket and no brand label, the sentinel |
| Videos.ExtractUploaderArtistWins | modules/video.py:240-245 | an artist name that is not empty once cleaned wins over the other two sources |
| Videos.ExtractUploaderEmptyArtist | modules/video.py:242-245 | an artist name that cleans to nothing counts as no match |
| Videos.ExtractUploaderSkipsMarked | modules/video.py:250-256 | a share-title bracket carrying 中文字幕 or 無碼 is passed over |
| Videos.ClassTag | modules/video.py:301-305 | a tag-link text has its span blocks removed and is cleaned to stripped text |
| Videos.ClassTagDropsSpan | modules/video.py:301-302 | a `<span>...</span>` at the start of a tag link is removed with its text |
| Videos.MetaTagsOf | modules/video.py:277-281 | every meta-derived tag is non-empty |
| Videos.ClassTagsOf | modules/video.py:294-309 | every link-derived tag is non-empty and shorter than 50 characters |
| Videos.TagSet | modules/video.py:269-313 | no tag is empty or blacklisted; an empty page has no tags |
| Videos.TagSetStripped | modules/video.py:278-305 | every tag is stripped text |
| Videos.CollectMetaTags | modules/video.py:277-281 | the meta loop collects exactly `MetaTagsOf` of the captures |
| Videos.CollectClassTags | modules/video.py:294-309 | the tag-link loop collects exactly `ClassTagsOf` of the captures |
| Videos.ExtractTags | modules/video.py:269-316 | the result is strictly sorted (so without duplicates) and holds exactly the page's tag set; `[]` for an empty page |
| Videos.ExtractTagsDetermined | modules/video.py:313-316 | any two sorted lists of the page's tags are the same list |
| Videos.FirstAccepted | modules/video.py:346-363 | the position of the first candidate that starts with `http` once repaired |
| Videos.FirstRepaired | modules/video.py:346-363 | whatever is returned starts with `http` |
| Videos.FirstRepairedNone | modules/video.py:346-363 | nothing is returned exactly when no repaired candidate starts with `http` |
| Videos.FirstRepairedAppend | modules/video.py:344-345 | a later candidate list is reached only when the earlier one yields nothing |
| Videos.TryCandidates | modules/video.py:346-363 | the innermost loop returns the first accepted candidate, repaired |
| Videos.TryPatterns | modules/video.py:345-363 | the patterns of one extension are tried in order |
| Videos.FallbackUrl | modules/video.py:365-397 | `""` when none of the three fallback patterns matches |
| Videos.VideoUrlPrefersM3u8 | modules/video.py:332-363 | an accepted .m3u8 candidate wins over every .mp4 candidate |
| Videos.VideoUrlFallback | modules/video.py:365-397 | with no accepted candidate at all, the fallback stage decides |
| Videos.ExtractVideoUrl | modules/video.py:320-397 | the method returns the URL the candidate order and acceptance rule define, `""` for an empty page |
| Videos.VideoUrl | modules/video.py:320-397 | an empty page has no video URL |
| Videos.ReadDetails | modules/video.py:104-126 | every extractor is run on the same page |
| Videos.Video.constructor | modules/video.py:22-36 | the dataclass defaults: empty texts, zero counts, no tags, not fetched |
| Videos.Video.Url | modules/video.py:38-41 | the watch-page URL, from which `extract_video_id` gives the id back |
| Videos.Video.DurationFormatted | modules/video.py:49-53 | `parse_duration` reads it back as the duration; `"00:00"` when the duration is not positive |
| Videos.Video.ViewsFormatted | modules/video.py:43-47 | read back exactly below 1000 views, within 500 from 10000 on |
| Videos.Video.Store | modules/video.py:104-126 | the eight detail fields are set; id, content and fetched flag are kept |
| Videos.Video.ParseHtml | modules/video.py:99-126 | with no content nothing changes (`uploader` stays `""`); otherwise all eight fields take their extractors' results; the id never changes |
| EmbeddedJson.GetFinds | modules/client.py:334-338 | `key in data` decides the lookup, and the value found is the one stored under the key (the key's only pair, as objects are taken to have distinct keys) |
| EmbeddedJson.PyStr | modules/client.py:335-340 | `str(v)` of a truthy value is not empty, of a string is the string, and of null, a bool or a container is not a digit string |
| EmbeddedJson.CandidateId | modules/client.py:332-339 | a candidate id comes from an `id`, `video_id` or `slug` key, and a `video_id` key always yields one |
| EmbeddedJson.FirstTruthyEmpty | modules/client.py:342-349 | the `or` chain gives `""` exactly when no key holds a truthy value |
| EmbeddedJson.RecordOf | modules/client.py:331-349 | at most one record per object, with a digit id and a title or a thumbnail |
| EmbeddedJson.IdBeforeVideoId | modules/client.py:333-343 | `id` wins over `video_id`, and `name` over `title` |
| EmbeddedJson.NullIdFallsBack | modules/client.py:333-337 | an `id` that is neither int nor str is passed over for `video_id` |
| EmbeddedJson.VideoIdHidesSlug | modules/client.py:333-341 | a present but non-digit `video_id` hides a digit `slug`, and no record is made |
| EmbeddedJson.VideosFromJson | modules/client.py:321-364 | nothing once the depth is spent, and nothing from a scalar |
| EmbeddedJson.VideosFromJsonWellFormed | modules/client.py:341-362 | every preview the walk returns has a digit id and a title or a thumbnail |
| EmbeddedJson.RecordFirst | modules/client.py:341-356 | an object's own record precedes everything found below it |
| EmbeddedJson.VideosFromJsonPruned | modules/client.py:327-362 | the walk at depth `d` never looks `d` or more steps below its start |
| EmbeddedJson.DefaultDepthBound | modules/client.py:321-328 | with the default depth 5, nothing five or more steps below the top is returned |
| EmbeddedJson.FixJsObjectUndefined | modules/client.py:218-226 | a whole word `undefined` becomes `null` |
| EmbeddedJson.FixJsObjectWord | modules/client.py:218-226 | any other whole word is kept |
| EmbeddedJson.FixJsObjectReplaces | modules/client.py:218-226 | `undefined` between two word breaks becomes `null` and nothing around it changes |
| EmbeddedJson.FixJsObjectConcat | modules/client.py:218-226 | text cut at a word break is rewritten piece by piece |
| EmbeddedJson.FixJsObjectUnchanged | modules/client.py:218-226 | text in which `undefined` does not occur is returned unchanged |
| EmbeddedJson.FixJsObjectIdempotent | modules/client.py:218-226 | rewriting twice is rewriting once |
| EmbeddedJson.FixJsObject | modules/client.py:218-226 | rewriting never lengthens the text |
| EmbeddedJson.FragmentVideos | modules/client.py:309-317 | a fragment that does not parse yields nothing |
| EmbeddedJson.SkipsUnparsed | modules/client.py:309-317 | a fragment that does not parse is skipped without affecting the others |
| EmbeddedJson.FirstYieldAfter | modules/client.py:309-319 | fragments that yield nothing are passed over |
| EmbeddedJson.ParseEmbeddedJson | modules/client.py:286-319 | the first `limit` previews of all fragments of the four patterns in order; for a negative limit, the slice of the first fragment that yields any |
| EmbeddedJson.ParseNuxtPayload | modules/client.py:172-216 | the `__NUXT_DATA__` fragments as they are, then the `__NUXT__` fragments rewritten; the first `limit` of everything |
| EmbeddedJson.NuxtRewriteCounts | modules/client.py:204-212 | a `__NUXT__` fragment that parses only once `undefined` is rewritten still yields its previews |
| Client.AddId | modules/client.py:385-389 | one scanned id is appended exactly when it is not blank and not yet kept |
| Client.DedupHas | modules/client.py:385-389 | an id is kept exactly when it is not blank and was scanned |
| Client.DedupDistinct | modules/client.py:385-389 | no id is kept twice |
| Client.DedupOrder | modules/client.py:385-389 | the kept ids are in the order of their first occurrences |
| Client.DedupNonEmpty | modules/client.py:385-394 | a scan keeps no id exactly when every id it found is blank |
| Client.CollectNewIds | modules/client.py:396-407 | one scan loop leaves the ids and the seen set as the de-duplication of everything scanned so far |
| Client.ListIds | modules/client.py:384-409 | the ids collected from the list page are distinct |
| Client.IdsNotBlank | modules/client.py:385-394 | digit ids are never blank, so a scan keeps none only when it found none |
| Client.ListIdsAre | modules/client.py:384-409 | the extended scans are used only when the link scan finds no id; the ids are distinct, come from the scans used, and are in first-occurrence order |
| Client.TitleFromIs | modules/client.py:459-466 | the title is the cleaned text of the first match longer than one character, and `""` exactly when there is none |
| Client.TitleFromShape | modules/client.py:462-466 | a title found is longer than one character and stripped |
| Client.ExtractThumbnailForId | modules/client.py:428-446 | the loop returns the first thumbnail pattern's match for the id, or `""` |
| Client.ExtractTitleForId | modules/client.py:448-466 | the loop returns the title of the first acceptable match for the id, or `""` |
| Client.CardPreview | modules/client.py:501-514 | a second group that starts with `http`, `//` or `data:` is the thumbnail, any other the title; a third group replaces the title |
| Client.AddCard | modules/client.py:497-516 | a card's preview is appended exactly when its id is not blank and not yet seen |
| Client.NewPreviewsIds | modules/client.py:496-516 | the preview ids of one pattern are the first occurrences of its card ids |
| Client.NewPreviewsPrefix | modules/client.py:496-516 | the previews of the first matches begin the previews of all of them |
| Client.NewPreviewsFirstMatch | modules/client.py:497-516 | a match whose id is new builds a preview, and that preview sits right after the previews of the earlier matches |
| Client.PatternCardsReached | modules/client.py:518-519 | when the loop stops at the limit, what it holds is what the pattern collects |
| Client.BuildCardPreview | modules/client.py:501-514 | the fields filled in step by step make up the card's preview |
| Client.CollectCards | modules/client.py:496-519 | one pattern's loop collects its new previews, stopping once `limit` are held (at least one), with the seen set as their ids |
| Client.ParseVideoCardsAdvanced | modules/client.py:468-524 | the card patterns in order, stopping after the first one that gave any preview |
| Client.PatternCardsIds | modules/client.py:495-519 | one pattern gives at most `max(limit, 1)` previews, with distinct ids in first-occurrence order |
| Client.AdvancedCards | modules/client.py:468-524 | the advanced card parser returns at most `max(limit, 1)` previews |
| Client.FirstYielding | modules/client.py:495-524 | the first card pattern whose matches give a preview: every earlier one gives none |
| Client.AdvancedCardsFrom | modules/client.py:495-524 | the previews are those of the first pattern with a usable match, and empty when no pattern has one |
| Client.ParseVideoList | modules/client.py:366-426 | the list parser: previews for the first `limit` list ids, else the card parser; never more than a non-negative `limit` |
| Client.VideoListDistinct | modules/client.py:366-426 | the ids of a list page's previews are distinct |
| Client.VideoListOfIds | modules/client.py:411-426 | with list ids and a positive limit, the previews are those of the first `limit` ids, in order, and the card parser is not used |
| Client.VideoList | modules/client.py:366-426 | for a non-negative limit, at most `limit` previews |
| Client.GetLatest | modules/client.py:117-150 | the home page through the three parsers in turn; never more than a non-negative `limit` |
| Client.LatestTierOrder | modules/client.py:136-150 | the Nuxt payload is used only when the embedded JSON gave nothing, the HTML list only when both gave nothing |
| Client.Latest | modules/client.py:117-150 | a home page that cannot be fetched gives no previews; a non-negative limit bounds their number |
| Client.Search | modules/client.py:228-265 | the URL is `build_search_url` of the arguments; an unfetchable page gives nothing, else the list parser's previews |
| Client.GetByGenre | modules/client.py:267-284 | a search by genre alone, in the default order |
| Client.IterLatest | modules/client.py:526-547 | every preview of pages 1 to `max_pages` in order, up to the first empty page |
| Client.PagesFrom | modules/client.py:540-547 | past the last page nothing is produced, and any output begins with the whole non-empty first page |
| Client.PagesStopAtEmpty | modules/client.py:543-544 | the first empty page ends the iteration; later pages are never read |
| Client.PagesBound | modules/client.py:541-547 | at most `per_page` previews per page |
| Client.AttemptRange | modules/client.py:571-581 | attempts 0-1 draw from 100000-200000, 2-3 from 50000-100000, later ones from 10000-50000 |
| Client.DrawIds | modules/client.py:575-581 | each draw is rendered as its decimal text |
| Client.FirstTitled | modules/client.py:571-587 | an id returned is one of those tried, and its video has a title |
| Client.FirstTitledIs | modules/client.py:584-590 | the first drawn id whose video has a non-empty title is returned, and `None` exactly when there is none |
| Client.RandomIdInRange | modules/client.py:571-587 | an id returned by the fallback is a digit string between 10000 and 200000 |
| Client.GetRandom | modules/client.py:549-590 | with a home-page list, the chosen entry's id if its video can be fetched; otherwise the first drawn id whose video has a title |
| Client.TryDraws | modules/client.py:570-590 | the fallback loop returns the first drawn id whose video has a non-empty title, and nothing when none has |

## Left out

- Network, sessions and async: `_get_session`, `_fetch`, `close` and `get_video` (modules/client.py:53-115), and `Video.fetch` and `VideoPreview.to_video` (modules/video.py:55-97, 451-466). The fetched page is a `Fetcher` parameter.
- Logging and `_debug_html` (modules/client.py:152-170): they do not affect any result.
- Image helpers `download_image`, `blur_image` and `save_image` (modules/utils.py:146-251): these are network, PIL and file I/O.
- `Video.to_dict` and the `__repr__` methods (modules/video.py:401-419, 478-479): plain projections of fields already modelled.
- Regular expressions other than the link-id scans, the `undefined` word, the clock token, the `[\d,.]+` run, the digit searches of `extract_video_id` and the `clean_html` steps: each is an abstract matcher standing for the group the code reads. Lazy, DOTALL and IGNORECASE backtracking is not encoded.
- Character classes: `\d`, `isdigit()`, `\w` and IGNORECASE are restricted to ASCII. `\s` and `strip()` use Python's whitespace set.
- `json.loads`, `html.unescape` and the `unicode_escape` codec are foreign calls: a `Loader` parameter and two fields of `PagePatterns`.
- EmbeddedJson.GetFinds: a JSON object is taken to have distinct keys, as a `dict` from `json.loads` has. For a document that repeats a key, `json.loads` keeps the last value at the first key's place. The model's `Get` returns the first pair's value instead, and `VideosFromFields` walks every repeated pair. Such documents are not modelled faithfully.
- JSON values have no floats. A non-string title or thumbnail is stored as its text (`PyStr`), where Python would store the object itself. `str()` of a list or a dict is rendered only by its opening bracket and a marker.
- Utils.FormatViews: the decimal is rounded half up on the exact value, while Python rounds the binary double half to even. Only the suffix branch and the read-back bounds are proved.
- Utils.ParseViewsOfWanDecimal: the run is read as an exact decimal. Binary `float()` rounding and overflow beyond about 308 digits are not modelled.
- Utils.ParseFormatViewsThousands: `parse_views` does not read the `k` of `format_views` back, so from 1000 to 9999 views there is no round trip. The lemma states what is read instead.
- Utils.ParseFormatViewsWan: the bound is `-500 <= d <= 500`, which holds under either rounding. The model's half-up rounding would give the strict `-500 < d`, but Python does not: 11500 formats as `1.1万` and reads back as 11000.
- Utils.ParseFormatViewsThousands: only the range is promised. At a tie such as 1950, 8950 or 9950, Python's binary rounding gives `1.9k`, `8.9k` and `9.9k`, read as 1, 8 and 9. The model's half-up rounding gives the upper end of the range.
- Videos.Video.ViewsFormatted: from 10000 on, the read-back bound is `-500 <= d <= 500`, for the reason given for Utils.ParseFormatViewsWan.
- Videos.RemoveSiteSuffix: requires title text without line breaks. It is only applied to `clean_html` output, which has none (`Videos.Cleaned`), so `.*$` always runs to the end.
- Videos.ExtractDuration: non-negativity is stated under the assumption that the labelled patterns capture clock text, as their `\d{1,2}:\d{2}` groups do. The patterns themselves are abstract.
- Client.IterLatest: the async generator is modelled as the list of everything it yields, in order. The laziness, where the consumer may stop early, is not modelled.
- Client.GetRandom: it returns the id of the video `get_video` would return rather than the `Video` object. `random.choice` and `random.randint` are the `choice` and `draws` parameters, and `titleOf` stands for `get_video(...).title`.
- Client.GetLatest: the four embedded-JSON patterns, the `__NUXT_DATA__` pattern and the three `__NUXT__` patterns are given as their lists of captures (`HomePatterns`).
- Client.ParseVideoList: the two extended id loops are two calls of `CollectNewIds`, the method that models one such loop.
- `main.py` and `modules/__init__.py`: the chat front end, cache cleanup and re-exports. `modules/consts.py` is reduced to the three URL constants; its compiled patterns are abstract matchers.
