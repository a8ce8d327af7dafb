/**
 * The embedded-data side of the listing scraper (modules/client.py): the
 * depth-bounded walk that turns parsed page data into previews, the rewrite
 * of JavaScript's `undefined`, and the two tiers that read JSON fragments
 * out of a page.
 *
 * Parsed data is a `Json` value standing for what `json.loads` returns.
 * `json.loads` itself is a parameter (`Loader`): `None` stands for a
 * fragment it rejects. The regular expressions that cut fragments out of
 * the page are given as their match lists.
 */
module EmbeddedJson {
  import opened Wrappers
  import opened Text
  import opened Videos

  // ---------------------------------------------------------------------
  // Parsed data
  // ---------------------------------------------------------------------

  /**
   * What `json.loads` returns. An object is its `(key, value)` pairs in the
   * dict's order, one pair per key; the model does not itself rule out a
   * repeated key.
   */
  datatype Json =
    | Null
    | Bool(b: bool)
    | Int(i: int)
    | Str(s: string)
    | Array(items: seq<Json>)
    | Object(fields: seq<(string, Json)>)

  /** `json.loads`: the value of a fragment, or `None` when it raises. */
  type Loader = string -> Option<Json>

  /** `dict.get(key)`: the value stored under `key`. */
  function Get(fields: seq<(string, Json)>, key: string): Option<Json> {
    if fields == [] then None
    else if fields[0].0 == key then Some(fields[0].1)
    else Get(fields[1..], key)
  }

  /** `key in data` decides the lookup, and what it finds is the value of the first pair with that key. */
  lemma {:induction false} GetFinds(fields: seq<(string, Json)>, key: string)
    ensures Get(fields, key).Some? <==> exists i :: 0 <= i < |fields| && fields[i].0 == key
    ensures Get(fields, key).Some? ==>
      exists i :: (0 <= i < |fields| && fields[i] == (key, Get(fields, key).value)
                   && forall j :: 0 <= j < i ==> fields[j].0 != key)
    decreases |fields|
  {
    if fields != [] && fields[0].0 != key {
      GetFinds(fields[1..], key);
      if Get(fields, key).Some? {
        var i :| 0 <= i < |fields[1..]| && fields[1..][i] == (key, Get(fields, key).value)
          && forall j :: 0 <= j < i ==> fields[1..][j].0 != key;
        assert fields[i + 1] == fields[1..][i];
        assert forall j :: 1 <= j < i + 1 ==> fields[j] == fields[1..][j - 1];
      } else {
        assert forall i :: 1 <= i < |fields| ==> fields[i] == fields[1..][i - 1];
      }
    } else if fields != [] {
      assert fields[0] == (key, Get(fields, key).value);
    }
  }

  /** Python truthiness. */
  predicate Truthy(v: Json) {
    match v
    case Null => false
    case Bool(b) => b
    case Int(i) => i != 0
    case Str(s) => s != ""
    case Array(items) => items != []
    case Object(fields) => fields != []
  }

  /**
   * `str(v)`. Containers are rendered only by their opening bracket and a
   * marker: what the walk needs of them is that they are not digits and not
   * empty.
   */
  function PyStr(v: Json): (r: string)
    ensures Truthy(v) ==> r != ""
    ensures v.Str? ==> r == v.s
    ensures (v.Null? || v.Bool? || v.Array? || v.Object?) ==> !IsDigitString(r)
  {
    match v
    case Null => assert !IsDigit("None"[0]); "None"
    case Bool(b) => assert !IsDigit("True"[0]) && !IsDigit("False"[0]); if b then "True" else "False"
    case Int(i) => IntToString(i)
    case Str(s) => s
    case Array(_) => assert !IsDigit("[...]"[0]); "[...]"
    case Object(_) => assert !IsDigit("{...}"[0]); "{...}"
  }

  // ---------------------------------------------------------------------
  // One record
  // ---------------------------------------------------------------------

  /**
   * The candidate id of an object: `id` when it is an int or a string (a
   * bool counts as an int), else `video_id` of any type, else `slug` when
   * its text is all digits.
   */
  function CandidateId(fields: seq<(string, Json)>): (r: Option<string>)
    ensures r.Some? ==> Get(fields, "id").Some? || Get(fields, "video_id").Some? || Get(fields, "slug").Some?
    ensures Get(fields, "video_id").Some? ==> r.Some?
  {
    var id := Get(fields, "id");
    if id.Some? && (id.value.Int? || id.value.Str? || id.value.Bool?) then Some(PyStr(id.value))
    else if Get(fields, "video_id").Some? then Some(PyStr(Get(fields, "video_id").value))
    else if Get(fields, "slug").Some? && IsDigitString(PyStr(Get(fields, "slug").value)) then
      Some(PyStr(Get(fields, "slug").value))
    else None
  }

  /** `data.get(k1) or data.get(k2) or ... or ""`. */
  function FirstTruthy(fields: seq<(string, Json)>, keys: seq<string>): string {
    if keys == [] then ""
    else
      var v := Get(fields, keys[0]);
      if v.Some? && Truthy(v.value) then PyStr(v.value)
      else FirstTruthy(fields, keys[1..])
  }

  /** The `or` chain gives the empty text exactly when no key holds a truthy value. */
  lemma {:induction false} FirstTruthyEmpty(fields: seq<(string, Json)>, keys: seq<string>)
    ensures FirstTruthy(fields, keys) != "" <==>
      exists j :: 0 <= j < |keys| && Get(fields, keys[j]).Some? && Truthy(Get(fields, keys[j]).value)
    decreases |keys|
  {
    if keys != [] {
      FirstTruthyEmpty(fields, keys[1..]);
      assert forall j :: 1 <= j < |keys| ==> keys[j] == keys[1..][j - 1];
    }
  }

  const TitleKeys: seq<string> := ["name", "title"]
  const ThumbnailKeys: seq<string> := ["cover_url", "thumbnail", "poster_url", "cover"]

  /** The preview an object stands for, if any: a digit id and a title or a thumbnail. */
  function RecordOf(fields: seq<(string, Json)>): (r: seq<VideoPreview>)
    ensures |r| <= 1
    ensures r != [] ==> IsDigitString(r[0].videoId) && (r[0].title != "" || r[0].thumbnail != "")
  {
    Record(CandidateId(fields), FirstTruthy(fields, TitleKeys), FirstTruthy(fields, ThumbnailKeys))
  }

  /** The record for a candidate id, a title and a thumbnail, when the id is all digits and one of the two is set. */
  function Record(vid: Option<string>, title: string, thumbnail: string): (r: seq<VideoPreview>)
    ensures |r| <= 1
    ensures r != [] ==> IsDigitString(r[0].videoId) && (r[0].title != "" || r[0].thumbnail != "")
  {
    if vid.Some? && IsDigitString(vid.value) && (title != "" || thumbnail != "") then
      [VideoPreview(vid.value, title, thumbnail, "", "")]
    else []
  }

  // ---------------------------------------------------------------------
  // The walk
  // ---------------------------------------------------------------------

  /** The keys whose values the walk descends into. */
  predicate IsContainerKey(key: string) {
    key == "videos" || key == "items" || key == "results" || key == "data" || key == "hentai_videos" || key == "state"
  }

  /** The default `max_depth`. */
  const DefaultMaxDepth: int := 5

  /**
   * `_extract_videos_from_json(data, depth)`: an object's own record, then
   * what its container keys hold; a list's items in order; each level one
   * less deep, nothing once the depth is spent.
   */
  function VideosFromJson(data: Json, depth: int): (r: seq<VideoPreview>)
    ensures depth <= 0 ==> r == []
    ensures !(data.Array? || data.Object?) ==> r == []
    decreases depth, 0
  {
    if depth <= 0 then []
    else
      match data
      case Object(fields) => RecordOf(fields) + VideosFromFields(fields, depth - 1)
      case Array(items) => VideosFromItems(items, depth - 1)
      case _ => []
  }

  /** The `for key, value in data.items()` loop: container values walked at `depth`. */
  function VideosFromFields(fields: seq<(string, Json)>, depth: int): seq<VideoPreview>
    decreases depth, |fields| + 1
  {
    if fields == [] then []
    else
      (if IsContainerKey(fields[0].0) then VideosFromJson(fields[0].1, depth) else [])
      + VideosFromFields(fields[1..], depth)
  }

  /** The `for item in data` loop: every item walked at `depth`. */
  function VideosFromItems(items: seq<Json>, depth: int): seq<VideoPreview>
    decreases depth, |items| + 1
  {
    if items == [] then [] else VideosFromJson(items[0], depth) + VideosFromItems(items[1..], depth)
  }

  /** Every preview the walk returns has a digit id and a title or a thumbnail. */
  predicate WellFormedPreviews(r: seq<VideoPreview>) {
    forall k :: 0 <= k < |r| ==> IsDigitString(r[k].videoId) && (r[k].title != "" || r[k].thumbnail != "")
  }

  lemma {:induction false} WellFormedAppend(a: seq<VideoPreview>, b: seq<VideoPreview>)
    requires WellFormedPreviews(a) && WellFormedPreviews(b)
    ensures WellFormedPreviews(a + b)
  {
    forall k | 0 <= k < |a + b|
      ensures IsDigitString((a + b)[k].videoId) && ((a + b)[k].title != "" || (a + b)[k].thumbnail != "")
    {
      if k >= |a| {
        assert (a + b)[k] == b[k - |a|];
      }
    }
  }

  lemma {:induction false} VideosFromJsonWellFormed(data: Json, depth: int)
    ensures WellFormedPreviews(VideosFromJson(data, depth))
    decreases depth, 0
  {
    if depth > 0 {
      match data
      case Object(fields) =>
        VideosFromFieldsWellFormed(fields, depth - 1);
        WellFormedAppend(RecordOf(fields), VideosFromFields(fields, depth - 1));
      case Array(items) =>
        VideosFromItemsWellFormed(items, depth - 1);
      case _ =>
    }
  }

  lemma {:induction false} VideosFromFieldsWellFormed(fields: seq<(string, Json)>, depth: int)
    ensures WellFormedPreviews(VideosFromFields(fields, depth))
    decreases depth, |fields| + 1
  {
    if fields != [] {
      if IsContainerKey(fields[0].0) {
        VideosFromJsonWellFormed(fields[0].1, depth);
      }
      VideosFromFieldsWellFormed(fields[1..], depth);
      WellFormedAppend(if IsContainerKey(fields[0].0) then VideosFromJson(fields[0].1, depth) else [],
                       VideosFromFields(fields[1..], depth));
    }
  }

  lemma {:induction false} VideosFromItemsWellFormed(items: seq<Json>, depth: int)
    ensures WellFormedPreviews(VideosFromItems(items, depth))
    decreases depth, |items| + 1
  {
    if items != [] {
      VideosFromJsonWellFormed(items[0], depth);
      VideosFromItemsWellFormed(items[1..], depth);
      WellFormedAppend(VideosFromJson(items[0], depth), VideosFromItems(items[1..], depth));
    }
  }

  /** An object's own record comes before anything found below it. */
  lemma {:induction false} RecordFirst(fields: seq<(string, Json)>, depth: int)
    requires depth > 0 && RecordOf(fields) != []
    ensures var r := VideosFromJson(Object(fields), depth);
      |r| > 0 && r[0] == RecordOf(fields)[0]
  {
  }

  // ---------------------------------------------------------------------
  // The depth bound
  // ---------------------------------------------------------------------

  /**
   * `data` with everything `n` or more steps below it (through container
   * keys and list items) replaced by `null`; other values are kept.
   */
  function Prune(data: Json, n: int): Json
    decreases n, 0
  {
    if n <= 0 then Null
    else
      match data
      case Object(fields) => Object(PruneFields(fields, n - 1))
      case Array(items) => Array(PruneItems(items, n - 1))
      case _ => data
  }

  function PruneFields(fields: seq<(string, Json)>, n: int): (r: seq<(string, Json)>)
    ensures |r| == |fields|
    decreases n, |fields| + 1
  {
    if fields == [] then []
    else
      var (key, value) := fields[0];
      [(key, if IsContainerKey(key) then Prune(value, n) else value)] + PruneFields(fields[1..], n)
  }

  function PruneItems(items: seq<Json>, n: int): (r: seq<Json>)
    ensures |r| == |items|
    decreases n, |items| + 1
  {
    if items == [] then [] else [Prune(items[0], n)] + PruneItems(items[1..], n)
  }

  /** Looking up a key that is not a container key sees through the pruning. */
  lemma {:induction false} GetPruned(fields: seq<(string, Json)>, n: int, key: string)
    requires !IsContainerKey(key)
    ensures Get(PruneFields(fields, n), key) == Get(fields, key)
    decreases |fields|
  {
    if fields != [] {
      assert PruneFields(fields, n)[1..] == PruneFields(fields[1..], n);
      GetPruned(fields[1..], n, key);
    }
  }

  /** Pruning keeps an object's own record. */
  lemma {:induction false} RecordOfPruned(fields: seq<(string, Json)>, n: int)
    ensures RecordOf(PruneFields(fields, n)) == RecordOf(fields)
  {
    CandidateIdPruned(fields, n);
    FirstTruthyPruned(fields, n, TitleKeys);
    FirstTruthyPruned(fields, n, ThumbnailKeys);
  }

  lemma {:induction false} CandidateIdPruned(fields: seq<(string, Json)>, n: int)
    ensures CandidateId(PruneFields(fields, n)) == CandidateId(fields)
  {
    GetPruned(fields, n, "id");
    GetPruned(fields, n, "video_id");
    GetPruned(fields, n, "slug");
  }

  lemma {:induction false} FirstTruthyPruned(fields: seq<(string, Json)>, n: int, keys: seq<string>)
    requires forall j :: 0 <= j < |keys| ==> !IsContainerKey(keys[j])
    ensures FirstTruthy(PruneFields(fields, n), keys) == FirstTruthy(fields, keys)
    decreases |keys|
  {
    if keys != [] {
      GetPruned(fields, n, keys[0]);
      FirstTruthyPruned(fields, n, keys[1..]);
    }
  }

  /**
   * The walk at depth `d` never looks `d` or more steps below where it
   * starts: pruning there changes nothing.
   */
  lemma {:induction false} VideosFromJsonPruned(data: Json, d: int)
    ensures VideosFromJson(Prune(data, d), d) == VideosFromJson(data, d)
    decreases d, 2
  {
    if d > 0 {
      if data.Object? {
        ObjectPruned(data.fields, d);
      } else if data.Array? {
        ArrayPruned(data.items, d);
      }
    }
  }

  lemma {:induction false} ObjectPruned(fields: seq<(string, Json)>, d: int)
    requires d > 0
    ensures VideosFromJson(Prune(Object(fields), d), d) == VideosFromJson(Object(fields), d)
    decreases d, 1
  {
    var p := PruneFields(fields, d - 1);
    assert Prune(Object(fields), d) == Object(p);
    RecordOfPruned(fields, d - 1);
    VideosFromFieldsPruned(fields, d - 1);
    VideosFromObject(p, d);
    VideosFromObject(fields, d);
  }

  /** An object's own record comes first, then what its container values hold. */
  lemma VideosFromObject(fields: seq<(string, Json)>, d: int)
    requires d > 0
    ensures VideosFromJson(Object(fields), d) == RecordOf(fields) + VideosFromFields(fields, d - 1)
  {
  }

  lemma {:induction false} ArrayPruned(items: seq<Json>, d: int)
    requires d > 0
    ensures VideosFromJson(Prune(Array(items), d), d) == VideosFromJson(Array(items), d)
    decreases d, 1
  {
    var p := PruneItems(items, d - 1);
    assert Prune(Array(items), d) == Array(p);
    VideosFromItemsPruned(items, d - 1);
    assert VideosFromJson(Array(p), d) == VideosFromItems(p, d - 1);
  }

  lemma {:induction false} VideosFromFieldsPruned(fields: seq<(string, Json)>, d: int)
    ensures VideosFromFields(PruneFields(fields, d), d) == VideosFromFields(fields, d)
    decreases d, |fields| + 3
  {
    if fields != [] {
      var p := PruneFields(fields, d);
      assert p[0].0 == fields[0].0;
      assert p[1..] == PruneFields(fields[1..], d);
      if IsContainerKey(fields[0].0) {
        VideosFromJsonPruned(fields[0].1, d);
      }
      VideosFromFieldsPruned(fields[1..], d);
    }
  }

  lemma {:induction false} VideosFromItemsPruned(items: seq<Json>, d: int)
    ensures VideosFromItems(PruneItems(items, d), d) == VideosFromItems(items, d)
    decreases d, |items| + 3
  {
    if items != [] {
      var p := PruneItems(items, d);
      assert p[0] == Prune(items[0], d);
      assert p[1..] == PruneItems(items[1..], d);
      VideosFromJsonPruned(items[0], d);
      VideosFromItemsPruned(items[1..], d);
    }
  }

  /** With the default depth, nothing five or more steps below the top is ever returned. */
  lemma {:induction false} DefaultDepthBound(data: Json)
    ensures VideosFromJson(Prune(data, DefaultMaxDepth), DefaultMaxDepth) == VideosFromJson(data, DefaultMaxDepth)
  {
    VideosFromJsonPruned(data, DefaultMaxDepth);
  }

  // ---------------------------------------------------------------------
  // Worked records
  // ---------------------------------------------------------------------

  /** `id` wins over `video_id`, and `name` over `title`. */
  lemma {:induction false} IdBeforeVideoId()
    ensures RecordOf([("video_id", Str("8")), ("id", Int(7)), ("title", Str("T")), ("name", Str("N"))])
         == [VideoPreview("7", "N", "", "", "")]
  {
    var f := [("video_id", Str("8")), ("id", Int(7)), ("title", Str("T")), ("name", Str("N"))];
    assert Get(f, "id") == Some(Int(7));
    assert IntToString(7) == "7";
    assert Get(f, "name") == Some(Str("N"));
    assert FirstTruthy(f, ThumbnailKeys) == "";
  }

  /** A `null` id is passed over for `video_id`. */
  lemma {:induction false} NullIdFallsBack()
    ensures RecordOf([("id", Null), ("video_id", Str("8")), ("cover", Str("c.jpg"))])
         == [VideoPreview("8", "", "c.jpg", "", "")]
  {
    var f := [("id", Null), ("video_id", Str("8")), ("cover", Str("c.jpg"))];
    assert Get(f, "id") == Some(Null);
    assert Get(f, "video_id") == Some(Str("8"));
    assert FirstTruthy(f, TitleKeys) == "";
    assert Get(f, "cover") == Some(Str("c.jpg"));
  }

  /** A present but non-digit `video_id` hides a digit `slug`: no record. */
  lemma {:induction false} VideoIdHidesSlug()
    ensures RecordOf([("video_id", Str("abc")), ("slug", Str("9")), ("name", Str("N"))]) == []
  {
    var f := [("video_id", Str("abc")), ("slug", Str("9")), ("name", Str("N"))];
    assert Get(f, "id").None?;
    assert Get(f, "video_id") == Some(Str("abc"));
    assert CandidateId(f) == Some("abc");
    assert !IsDigit("abc"[0]);
  }

  // ---------------------------------------------------------------------
  // _fix_js_object: \bundefined\b -> null
  // ---------------------------------------------------------------------

  /** A character of `\w` (ASCII letters, digits and `_`). */
  predicate IsWordChar(c: char) {
    ('a' <= c <= 'z') || ('A' <= c <= 'Z') || ('0' <= c <= '9') || c == '_'
  }

  /** A non-empty run of word characters. */
  predicate IsWord(w: string) {
    w != [] && forall i :: 0 <= i < |w| ==> IsWordChar(w[i])
  }

  /** Text that is empty or starts with a character that is not a word character. */
  predicate StartsAtBreak(t: string) {
    t == [] || !IsWordChar(t[0])
  }

  /** Text that is empty or ends with a character that is not a word character. */
  predicate EndsAtBreak(a: string) {
    a == [] || !IsWordChar(a[|a| - 1])
  }

  /** The run of word characters that `s` starts with. */
  function LeadingWord(s: string): (w: string)
    ensures StartsWith(s, w)
    ensures forall i :: 0 <= i < |w| ==> IsWordChar(w[i])
    ensures |w| < |s| ==> !IsWordChar(s[|w|])
    ensures s != [] && IsWordChar(s[0]) ==> w != []
  {
    if s != [] && IsWordChar(s[0]) then [s[0]] + LeadingWord(s[1..]) else ""
  }

  const Undefined: string := "undefined"
  const JsNull: string := "null"

  /**
   * `re.sub(r'\bundefined\b', 'null', s)`. As `undefined` is made of word
   * characters, a match is exactly a whole run of word characters that
   * reads `undefined`; the text is scanned run by run.
   */
  function FixJsObject(s: string): (r: string)
    ensures |r| <= |s|
    decreases |s|
  {
    if s == [] then []
    else if IsWordChar(s[0]) then
      var w := LeadingWord(s);
      Rewritten(w) + FixJsObject(s[|w|..])
    else [s[0]] + FixJsObject(s[1..])
  }

  /** One run of word characters, rewritten. */
  function Rewritten(w: string): (r: string)
    ensures r != Undefined
    ensures IsWord(w) ==> IsWord(r)
  {
    if w == Undefined then JsNull else w
  }

  lemma {:induction false} UnfoldWord(s: string)
    requires s != [] && IsWordChar(s[0])
    ensures FixJsObject(s) == Rewritten(LeadingWord(s)) + FixJsObject(s[|LeadingWord(s)|..])
  {
  }

  lemma {:induction false} UnfoldOther(s: string)
    requires s != [] && !IsWordChar(s[0])
    ensures FixJsObject(s) == [s[0]] + FixJsObject(s[1..])
  {
  }

  lemma {:induction false} DropConcat<T>(a: seq<T>, t: seq<T>, k: nat)
    requires k <= |a|
    ensures (a + t)[k..] == a[k..] + t
  {
  }

  lemma {:induction false} AppendAssoc<T>(a: seq<T>, b: seq<T>, c: seq<T>)
    ensures (a + b) + c == a + (b + c)
  {
  }

  lemma {:induction false} LeadingWordOf(w: string, t: string)
    requires forall i :: 0 <= i < |w| ==> IsWordChar(w[i])
    requires StartsAtBreak(t)
    ensures LeadingWord(w + t) == w
    decreases |w|
  {
    if w != [] {
      assert (w + t)[0] == w[0];
      DropConcat(w, t, 1);
      LeadingWordOf(w[1..], t);
    }
  }

  /** A whole run of word characters is rewritten on its own. */
  lemma {:induction false} FixJsObjectRun(w: string, t: string)
    requires IsWord(w) && StartsAtBreak(t)
    ensures FixJsObject(w + t) == Rewritten(w) + FixJsObject(t)
  {
    LeadingWordOf(w, t);
    assert (w + t)[0] == w[0];
    UnfoldWord(w + t);
    DropConcat(w, t, |w|);
  }

  /** A character that is not a word character is copied. */
  lemma {:induction false} FixJsObjectOther(c: char, t: string)
    requires !IsWordChar(c)
    ensures FixJsObject([c] + t) == [c] + FixJsObject(t)
  {
    assert ([c] + t)[0] == c;
    UnfoldOther([c] + t);
    DropConcat([c], t, 1);
  }

  /** A run of word characters other than `undefined`, then a break, is kept as it is. */
  lemma {:induction false} FixJsObjectWord(w: string, t: string)
    requires IsWord(w) && w != Undefined && StartsAtBreak(t)
    ensures FixJsObject(w + t) == w + FixJsObject(t)
  {
    FixJsObjectRun(w, t);
  }

  lemma {:induction false} UndefinedIsWord()
    ensures IsWord(Undefined)
  {
    assert Undefined == ['u', 'n', 'd', 'e', 'f', 'i', 'n', 'e', 'd'];
  }

  /** A whole word `undefined` becomes `null`. */
  lemma {:induction false} FixJsObjectUndefined(t: string)
    requires StartsAtBreak(t)
    ensures FixJsObject(Undefined + t) == JsNull + FixJsObject(t)
  {
    UndefinedIsWord();
    FixJsObjectRun(Undefined, t);
  }

  /** The rewrite keeps whether the text starts with a word character. */
  lemma {:induction false} FixJsObjectHead(s: string)
    ensures FixJsObject(s) == [] <==> s == []
    ensures StartsAtBreak(s) ==> StartsAtBreak(FixJsObject(s))
  {
    if s != [] {
      if IsWordChar(s[0]) {
        UnfoldWord(s);
        assert FixJsObject(s)[0] == Rewritten(LeadingWord(s))[0];
      } else {
        UnfoldOther(s);
      }
    }
  }

  /** Rewriting twice is rewriting once. */
  lemma {:induction false} FixJsObjectIdempotent(s: string)
    ensures FixJsObject(FixJsObject(s)) == FixJsObject(s)
    decreases |s|
  {
    if s != [] {
      if IsWordChar(s[0]) {
        var w := LeadingWord(s);
        var rest := s[|w|..];
        UnfoldWord(s);
        assert StartsAtBreak(rest) by {
          assert rest != [] ==> rest[0] == s[|w|];
        }
        FixJsObjectHead(rest);
        FixJsObjectIdempotent(rest);
        FixJsObjectRun(Rewritten(w), FixJsObject(rest));
      } else {
        UnfoldOther(s);
        FixJsObjectIdempotent(s[1..]);
        FixJsObjectOther(s[0], FixJsObject(s[1..]));
      }
    }
  }

  lemma {:induction false} StartsWithContains(s: string, w: string)
    requires StartsWith(s, w)
    ensures Contains(s, w)
  {
    assert s[0..] == s;
    assert OccursAt(s, w, 0);
  }

  lemma {:induction false} NotContainsSuffix(s: string, sub: string, n: nat)
    requires n <= |s| && !Contains(s, sub)
    ensures !Contains(s[n..], sub)
  {
    forall i | 0 <= i <= |s| - n ensures !OccursAt(s[n..], sub, i) {
      assert !OccursAt(s, sub, n + i);
      assert s[n..][i..] == s[n + i..];
    }
  }

  /** Text in which `undefined` does not occur is returned unchanged. */
  lemma {:induction false} FixJsObjectUnchanged(s: string)
    requires !Contains(s, Undefined)
    ensures FixJsObject(s) == s
    decreases |s|
  {
    if s != [] {
      var k := HeadKept(s);
      NotContainsSuffix(s, Undefined, k);
      FixJsObjectUnchanged(s[k..]);
      assert s == s[..k] + s[k..];
    }
  }

  /** Without `undefined` in the text, its first run or character is copied. */
  lemma {:induction false} HeadKept(s: string) returns (k: nat)
    requires s != [] && !Contains(s, Undefined)
    ensures 0 < k <= |s| && FixJsObject(s) == s[..k] + FixJsObject(s[k..])
  {
    if IsWordChar(s[0]) {
      var w := LeadingWord(s);
      StartsWithContains(s, w);
      UnfoldWord(s);
      k := |w|;
    } else {
      UnfoldOther(s);
      k := 1;
      assert s[..1] == [s[0]];
    }
  }

  /** A run of word characters cannot reach past a break inside the text. */
  lemma {:induction false} LeadingWordWithin(a: string, t: string)
    requires a != [] && EndsAtBreak(a)
    ensures LeadingWord(a + t) == LeadingWord(a)
    ensures |LeadingWord(a)| < |a|
    decreases |a|
  {
    assert (a + t)[0] == a[0];
    if IsWordChar(a[0]) {
      assert |a| > 1;
      DropConcat(a, t, 1);
      assert a[1..][|a| - 2] == a[|a| - 1];
      LeadingWordWithin(a[1..], t);
    }
  }

  /** The tail of text that ends at a break ends at the same break. */
  lemma {:induction false} EndsAtBreakDrop(a: string, k: nat)
    requires k <= |a| && EndsAtBreak(a)
    ensures EndsAtBreak(a[k..])
  {
    if k < |a| {
      assert a[k..][|a| - k - 1] == a[|a| - 1];
    }
  }

  /** The rewrite works run by run: text cut at a break is rewritten piece by piece. */
  lemma {:induction false} FixJsObjectConcat(a: string, t: string)
    requires EndsAtBreak(a)
    ensures FixJsObject(a + t) == FixJsObject(a) + FixJsObject(t)
    decreases |a|
  {
    if a == [] {
      assert a + t == t;
    } else {
      assert (a + t)[0] == a[0];
      var k: nat;
      var head: string;
      if IsWordChar(a[0]) {
        LeadingWordWithin(a, t);
        k := |LeadingWord(a)|;
        head := Rewritten(LeadingWord(a));
        UnfoldWord(a + t);
        UnfoldWord(a);
      } else {
        k := 1;
        head := [a[0]];
        UnfoldOther(a + t);
        UnfoldOther(a);
      }
      DropConcat(a, t, k);
      EndsAtBreakDrop(a, k);
      FixJsObjectConcat(a[k..], t);
      AppendAssoc(head, FixJsObject(a[k..]), FixJsObject(t));
    }
  }

  /** A whole word `undefined` between two breaks becomes `null`, and nothing else changes around it. */
  lemma {:induction false} FixJsObjectReplaces(a: string, b: string)
    requires EndsAtBreak(a) && StartsAtBreak(b)
    ensures FixJsObject(a + Undefined + b) == FixJsObject(a) + JsNull + FixJsObject(b)
  {
    FixJsObjectConcat(a, Undefined + b);
    FixJsObjectUndefined(b);
    AppendAssoc(a, Undefined, b);
    AppendAssoc(FixJsObject(a), JsNull, FixJsObject(b));
  }

  // ---------------------------------------------------------------------
  // Fragments of a page
  // ---------------------------------------------------------------------


  /** What one fragment yields: its walk, or nothing when it does not parse. */
  function FragmentVideos(frag: string, load: Loader): (r: seq<VideoPreview>)
    ensures load(frag).None? ==> r == []
  {
    match load(frag)
    case None => []
    case Some(data) => VideosFromJson(data, DefaultMaxDepth)
  }

  /** The fragments' yields, one after the other. */
  function AllVideos(frags: seq<string>, load: Loader): seq<VideoPreview>
    decreases |frags|
  {
    if frags == [] then [] else AllVideos(frags[..|frags| - 1], load) + FragmentVideos(frags[|frags| - 1], load)
  }

  lemma {:induction false} AllVideosSnoc(done: seq<string>, frag: string, load: Loader)
    ensures AllVideos(done + [frag], load) == AllVideos(done, load) + FragmentVideos(frag, load)
  {
    assert (done + [frag])[..|done|] == done;
  }

  lemma {:induction false} AllVideosAppend(a: seq<string>, b: seq<string>, load: Loader)
    ensures AllVideos(a + b, load) == AllVideos(a, load) + AllVideos(b, load)
    decreases |b|
  {
    if b == [] {
      assert a + b == a;
    } else {
      var b', x := b[..|b| - 1], b[|b| - 1];
      assert b == b' + [x];
      AppendAssoc(a, b', [x]);
      AllVideosSnoc(a + b', x, load);
      AllVideosSnoc(b', x, load);
      AllVideosAppend(a, b', load);
      AppendAssoc(AllVideos(a, load), AllVideos(b', load), FragmentVideos(x, load));
    }
  }

  lemma {:induction false} AllVideosPrefix(frags: seq<string>, i: nat, load: Loader)
    requires i < |frags|
    ensures AllVideos(frags[..i + 1], load) == AllVideos(frags[..i], load) + FragmentVideos(frags[i], load)
  {
    assert frags[..i + 1][..i] == frags[..i];
  }

  lemma {:induction false} AllVideosCons(frag: string, rest: seq<string>, load: Loader)
    ensures AllVideos([frag] + rest, load) == FragmentVideos(frag, load) + AllVideos(rest, load)
  {
    AllVideosAppend([frag], rest, load);
    AllVideosSingle(frag, load);
  }

  lemma {:induction false} AllVideosSingle(frag: string, load: Loader)
    ensures AllVideos([frag], load) == FragmentVideos(frag, load)
  {
    assert [frag][..0] == [];
    assert AllVideos([frag], load) == AllVideos([], load) + FragmentVideos(frag, load);
  }



  /** A fragment that does not parse is skipped. */
  lemma {:induction false} SkipsUnparsed(a: seq<string>, frag: string, b: seq<string>, load: Loader)
    requires load(frag).None?
    ensures AllVideos(a + [frag] + b, load) == AllVideos(a + b, load)
  {
    AllVideosAppend(a + [frag], b, load);
    AllVideosSnoc(a, frag, load);
    AllVideosAppend(a, b, load);
  }

  /** The first fragment that yields anything, and what it yields. */
  function FirstYield(frags: seq<string>, load: Loader): seq<VideoPreview>
    decreases |frags|
  {
    if frags == [] then []
    else if FragmentVideos(frags[0], load) != [] then FragmentVideos(frags[0], load)
    else FirstYield(frags[1..], load)
  }

  /** Fragments that yield nothing are passed over by `FirstYield`. */
  lemma {:induction false} FirstYieldAfter(a: seq<string>, b: seq<string>, load: Loader)
    requires AllVideos(a, load) == []
    ensures FirstYield(a + b, load) == FirstYield(b, load)
    decreases |a|
  {
    if a == [] {
      assert a + b == b;
    } else {
      assert a == [a[0]] + a[1..];
      AllVideosCons(a[0], a[1..], load);
      assert (a + b)[0] == a[0] && (a + b)[1..] == a[1..] + b;
      FirstYieldAfter(a[1..], b, load);
    }
  }

  /** The match lists of several patterns, one after the other. */
  function Flatten(lists: seq<seq<string>>): seq<string>
    decreases |lists|
  {
    if lists == [] then [] else Flatten(lists[..|lists| - 1]) + lists[|lists| - 1]
  }

  lemma {:induction false} FlattenStep(lists: seq<seq<string>>, p: nat)
    requires p < |lists|
    ensures Flatten(lists[..p + 1]) == Flatten(lists[..p]) + lists[p]
  {
    assert lists[..p + 1][..p] == lists[..p];
  }

  lemma {:induction false} FlattenAppend(a: seq<seq<string>>, b: seq<seq<string>>)
    ensures Flatten(a + b) == Flatten(a) + Flatten(b)
    decreases |b|
  {
    if b == [] {
      assert a + b == a;
    } else {
      var b', x := b[..|b| - 1], b[|b| - 1];
      assert b == b' + [x];
      assert (a + b)[..|a + b| - 1] == a + b';
      assert b[..|b| - 1] == b';
      FlattenAppend(a, b');
    }
  }

  /** No fragment of the `p`-th list yet. */
  lemma {:induction false} FlattenRoundStart(lists: seq<seq<string>>, p: nat)
    requires p < |lists|
    ensures Flatten(lists[..p]) + lists[p][..0] == Flatten(lists[..p])
  {
    assert lists[p][..0] == [];
  }

  /** All fragments of the `p`-th list. */
  lemma {:induction false} FlattenRoundEnd(lists: seq<seq<string>>, p: nat)
    requires p < |lists|
    ensures Flatten(lists[..p]) + lists[p][..|lists[p]|] == Flatten(lists[..p + 1])
  {
    assert lists[p][..|lists[p]|] == lists[p];
    FlattenStep(lists, p);
  }

  /**
   * The flattened lists, seen from the `m`-th fragment of the `p`-th list:
   * what comes before it, the fragment itself, and what comes after it.
   */
  lemma {:induction false} FlattenAround(lists: seq<seq<string>>, p: nat, m: nat)
    requires p < |lists| && m < |lists[p]|
    ensures Flatten(lists) == (Flatten(lists[..p]) + lists[p][..m])
                              + ([lists[p][m]] + (lists[p][m + 1..] + Flatten(lists[p + 1..])))
  {
    var f, ms, r := Flatten(lists[..p]), lists[p], Flatten(lists[p + 1..]);
    var a, x, b := ms[..m], [ms[m]], ms[m + 1..];
    FlattenSplit(lists, p);
    assert ms == a + (x + b);
    AppendAssoc(f, a, x + b);
    AppendAssoc(f + a, x + b, r);
    AppendAssoc(x, b, r);
  }

  /** The flattened lists split around the `p`-th one. */
  lemma {:induction false} FlattenSplit(lists: seq<seq<string>>, p: nat)
    requires p < |lists|
    ensures Flatten(lists) == Flatten(lists[..p]) + lists[p] + Flatten(lists[p + 1..])
  {
    FlattenAppend(lists[..p + 1], lists[p + 1..]);
    assert lists[..p + 1] + lists[p + 1..] == lists;
    FlattenStep(lists, p);
  }

  /** One more fragment of the `p`-th list. */
  lemma {:induction false} NextFragment(lists: seq<seq<string>>, p: nat, m: nat)
    requires p < |lists| && m < |lists[p]|
    ensures Flatten(lists[..p]) + lists[p][..m + 1] == (Flatten(lists[..p]) + lists[p][..m]) + [lists[p][m]]
  {
    assert lists[p][..m + 1] == lists[p][..m] + [lists[p][m]];
  }

  // ---------------------------------------------------------------------
  // _parse_embedded_json
  // ---------------------------------------------------------------------

  /**
   * `_parse_embedded_json`: the fragments of each pattern in turn, parsed
   * and walked; as soon as `limit` previews are collected (for `limit <= 0`,
   * as soon as any are) the first `limit` are returned.
   */
  method ParseEmbeddedJson(matches: seq<seq<string>>, load: Loader, limit: int) returns (r: seq<VideoPreview>)
    ensures limit >= 0 ==> r == Take(AllVideos(Flatten(matches), load), limit)
    ensures limit < 0 ==> r == Take(FirstYield(Flatten(matches), load), limit)
  {
    var results: seq<VideoPreview> := [];
    ghost var seen: seq<string> := [];
    var p := 0;
    while p < |matches|
      invariant 0 <= p <= |matches|
      invariant seen == Flatten(matches[..p])
      invariant results == AllVideos(seen, load)
      invariant results == [] || |results| < limit
    {
      var ms := matches[p];
      var m := 0;
      FlattenRoundStart(matches, p);
      while m < |ms|
        invariant 0 <= m <= |ms|
        invariant seen == Flatten(matches[..p]) + ms[..m]
        invariant results == AllVideos(seen, load)
        invariant results == [] || |results| < limit
      {
        var found := FragmentVideos(ms[m], load);
        AllVideosSnoc(seen, ms[m], load);
        if found != [] {
          ghost var before := results;
          results := results + found;
          if |results| >= limit {
            EarlyReturn(matches, p, m, load, limit, before, found);
            r := Take(results, limit);
            return;
          }
        }
        NextFragment(matches, p, m);
        seen := seen + [ms[m]];
        m := m + 1;
      }
      FlattenRoundEnd(matches, p);
      p := p + 1;
    }
    assert matches[..p] == matches;
    EmbeddedDone(seen, load, limit, results);
    r := if results != [] then Take(results, limit) else [];
  }

  /** Every fragment read without reaching the limit: what is returned then. */
  lemma {:induction false} EmbeddedDone(frags: seq<string>, load: Loader, limit: int, results: seq<VideoPreview>)
    requires results == AllVideos(frags, load)
    requires results == [] || |results| < limit
    ensures limit >= 0 ==> (if results != [] then Take(results, limit) else []) == Take(AllVideos(frags, load), limit)
    ensures limit < 0 ==> (if results != [] then Take(results, limit) else []) == Take(FirstYield(frags, load), limit)
  {
    if limit < 0 {
      FirstYieldAfter(frags, [], load);
      assert frags + [] == frags;
    }
  }

  /** What the early return hands back agrees with the whole list (or, for a negative limit, the first yield). */
  lemma {:induction false} EarlyReturn(matches: seq<seq<string>>, p: nat, m: nat, load: Loader, limit: int,
                    before: seq<VideoPreview>, found: seq<VideoPreview>)
    requires p < |matches| && m < |matches[p]|
    requires before == AllVideos(Flatten(matches[..p]) + matches[p][..m], load)
    requires before == [] || |before| < limit
    requires found == FragmentVideos(matches[p][m], load) && found != []
    requires |before + found| >= limit
    ensures limit >= 0 ==> Take(before + found, limit) == Take(AllVideos(Flatten(matches), load), limit)
    ensures limit < 0 ==> Take(before + found, limit) == Take(FirstYield(Flatten(matches), load), limit)
  {
    var done := Flatten(matches[..p]) + matches[p][..m];
    var x := matches[p][m];
    var rest := matches[p][m + 1..] + Flatten(matches[p + 1..]);
    FlattenAround(matches, p, m);
    if limit >= 0 {
      AllVideosAppend(done, [x] + rest, load);
      AllVideosCons(x, rest, load);
      AppendAssoc(before, found, AllVideos(rest, load));
      TakeAppend(before + found, AllVideos(rest, load), limit);
    } else {
      FirstYieldAfter(done, [x] + rest, load);
      assert ([x] + rest)[0] == x;
      assert before + found == found;
    }
  }

  // ---------------------------------------------------------------------
  // _parse_nuxt_payload
  // ---------------------------------------------------------------------

  /** The JavaScript-object fragments, each rewritten by `_fix_js_object`. */
  function FixAll(frags: seq<string>): (r: seq<string>)
    ensures |r| == |frags|
    decreases |frags|
  {
    if frags == [] then [] else FixAll(frags[..|frags| - 1]) + [FixJsObject(frags[|frags| - 1])]
  }

  lemma {:induction false} FixAllSnoc(done: seq<string>, frag: string)
    ensures FixAll(done + [frag]) == FixAll(done) + [FixJsObject(frag)]
  {
    assert (done + [frag])[..|done|] == done;
  }

  /**
   * `_parse_nuxt_payload`: the `__NUXT_DATA__` fragments parsed as they are,
   * then the fragments of the three `__NUXT__` patterns with `undefined`
   * rewritten first; everything collected, the first `limit` returned.
   */
  method ParseNuxtPayload(dataFrags: seq<string>, nuxtMatches: seq<seq<string>>, load: Loader, limit: int)
    returns (r: seq<VideoPreview>)
    ensures r == Take(AllVideos(dataFrags, load) + AllVideos(FixAll(Flatten(nuxtMatches)), load), limit)
  {
    var results: seq<VideoPreview> := [];
    var i := 0;
    while i < |dataFrags|
      invariant 0 <= i <= |dataFrags|
      invariant results == AllVideos(dataFrags[..i], load)
    {
      AllVideosPrefix(dataFrags, i, load);
      results := results + FragmentVideos(dataFrags[i], load);
      i := i + 1;
    }
    assert dataFrags[..i] == dataFrags;
    ghost var first := results;
    var p := 0;
    while p < |nuxtMatches|
      invariant 0 <= p <= |nuxtMatches|
      invariant results == first + AllVideos(FixAll(Flatten(nuxtMatches[..p])), load)
    {
      var ms := nuxtMatches[p];
      var m := 0;
      FlattenRoundStart(nuxtMatches, p);
      while m < |ms|
        invariant 0 <= m <= |ms|
        invariant results == first + AllVideos(FixAll(Flatten(nuxtMatches[..p]) + ms[..m]), load)
      {
        NuxtStep(nuxtMatches, p, m, load);
        AppendAssoc(first, AllVideos(FixAll(Flatten(nuxtMatches[..p]) + ms[..m]), load),
                    FragmentVideos(FixJsObject(ms[m]), load));
        results := results + FragmentVideos(FixJsObject(ms[m]), load);
        m := m + 1;
      }
      FlattenRoundEnd(nuxtMatches, p);
      p := p + 1;
    }
    assert nuxtMatches[..p] == nuxtMatches;
    r := if results != [] then Take(results, limit) else [];
  }

  /** One more `__NUXT__` fragment, rewritten and walked. */
  lemma {:induction false} NuxtStep(lists: seq<seq<string>>, p: nat, m: nat, load: Loader)
    requires p < |lists| && m < |lists[p]|
    ensures AllVideos(FixAll(Flatten(lists[..p]) + lists[p][..m + 1]), load)
         == AllVideos(FixAll(Flatten(lists[..p]) + lists[p][..m]), load) + FragmentVideos(FixJsObject(lists[p][m]), load)
  {
    var done := Flatten(lists[..p]) + lists[p][..m];
    NextFragment(lists, p, m);
    FixAllSnoc(done, lists[p][m]);
    AllVideosSnoc(FixAll(done), FixJsObject(lists[p][m]), load);
  }

  /** A `__NUXT__` fragment that parses only once `undefined` is rewritten still counts. */
  lemma {:induction false} NuxtRewriteCounts(frag: string, load: Loader)
    requires load(FixJsObject(frag)).Some?
    ensures AllVideos(FixAll([frag]), load) == VideosFromJson(load(FixJsObject(frag)).value, DefaultMaxDepth)
  {
    AllVideosSingle(FixJsObject(frag), load);
    assert FixAll([frag]) == [FixJsObject(frag)];
  }
}
