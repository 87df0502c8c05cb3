/**
 * Phase 2: the cache lookup for a worksheet request. The request names a
 * source dataset, theme, reading level, model, section and seed; together they
 * select one file under the datastore root. The lookup reads that file and
 * wraps it with the request.
 *
 * A path is a POSIX `pathlib` path: its anchor and its parts, joined with `/`
 * as pathlib joins them. The datastore is a map from paths to what reading the
 * file there gives; a path absent from the map is not a file.
 */
module CacheLookup {
  import opened PyJson
  import opened Results

  /** `build_reading_level_segment`'s dict branch applies: `system` and `level` are both non-None. */
  predicate HasSystemAndLevel(readingLevel: Json) {
    readingLevel.JObj?
    && Get(readingLevel.fields, "system") != JNull
    && Get(readingLevel.fields, "level") != JNull
  }

  /** `build_reading_level_segment`: `{system}_{level}`, else `str(reading_level)`. */
  function ReadingLevelSegment(readingLevel: Json, containerStr: Json -> string): string {
    if HasSystemAndLevel(readingLevel) then
      PyStr(readingLevel.fields["system"], containerStr) + "_"
      + PyStr(Get(readingLevel.fields, "level"), containerStr)
    else
      PyStr(readingLevel, containerStr)
  }

  /** The documented example: `{"system": "fp", "level": "P"}` gives `fp_P`. */
  lemma SegmentExample(containerStr: Json -> string)
    ensures ReadingLevelSegment(JObj(map["system" := JStr("fp"), "level" := JStr("P")]), containerStr) == "fp_P"
  {
  }

  /** A dict with non-None `system` and `level` yields exactly `system_level`, with the strings as given. */
  lemma SegmentOfStrings(system: string, level: string, extra: map<string, Json>, containerStr: Json -> string)
    requires "system" !in extra && "level" !in extra
    ensures ReadingLevelSegment(JObj(extra["system" := JStr(system)]["level" := JStr(level)]), containerStr)
         == system + "_" + level
  {
  }

  /**
   * The test is `is not None`, not truthiness: a level of `0` or `""` still
   * takes the dict branch.
   */
  lemma FalsyLevelStillJoined(system: string, containerStr: Json -> string)
    ensures ReadingLevelSegment(JObj(map["system" := JStr(system), "level" := JInt(0)]), containerStr) == system + "_0"
    ensures ReadingLevelSegment(JObj(map["system" := JStr(system), "level" := JStr("")]), containerStr) == system + "_"
  {
  }

  /** A non-dict, or a dict without a non-None `system` or `level`, falls back to `str(reading_level)`. */
  lemma SegmentFallback(readingLevel: Json, containerStr: Json -> string)
    requires !readingLevel.JObj? || Get(readingLevel.fields, "system") == JNull || Get(readingLevel.fields, "level") == JNull
    ensures ReadingLevelSegment(readingLevel, containerStr) == PyStr(readingLevel, containerStr)
  {
  }

  /** All six request fields are present. */
  predicate HasRequiredFields(request: map<string, Json>) {
    && "source_dataset" in request && "theme" in request && "reading_level" in request
    && "model" in request && "section" in request && "seed" in request
  }

  /** The request fields `main` reads, in the order it reads them. */
  const RequiredFields: seq<string> := ["source_dataset", "theme", "reading_level", "model", "section", "seed"]

  /** The first of `names` that `fields` lacks (`KeyError` on it), if any. */
  function FirstMissing(fields: map<string, Json>, names: seq<string>): (r: Option<string>)
    ensures r.None? <==> forall i :: 0 <= i < |names| ==> names[i] in fields
    ensures r.Some? ==> exists i :: 0 <= i < |names| && names[i] == r.value && names[i] !in fields
                                   && forall j :: 0 <= j < i ==> names[j] in fields
  {
    if names == [] then None
    else if names[0] !in fields then Some(names[0])
    else
      var rest := FirstMissing(fields, names[1..]);
      assert forall i :: 1 <= i < |names| ==> names[i] == names[1..][i - 1];
      if rest.Some? then
        var i :| 0 <= i < |names[1..]| && names[1..][i] == rest.value && names[1..][i] !in fields
                 && forall j :: 0 <= j < i ==> names[1..][j] in fields;
        assert names[i + 1] == rest.value;
        rest
      else rest
  }

  lemma FirstMissingRequired(fields: map<string, Json>)
    ensures FirstMissing(fields, RequiredFields).None? <==> HasRequiredFields(fields)
  {
    assert RequiredFields[0] == "source_dataset" && RequiredFields[1] == "theme";
    assert RequiredFields[2] == "reading_level" && RequiredFields[3] == "model";
    assert RequiredFields[4] == "section" && RequiredFields[5] == "seed";
  }

  // ---------------------------------------------------------------------------
  // pathlib's `/` on POSIX
  // ---------------------------------------------------------------------------

  /**
   * A `PurePosixPath`: its anchor (`""`, `"/"` or `"//"`) and its parts. Two
   * paths are equal exactly when these are.
   */
  datatype FsPath = FsPath(anchor: string, parts: seq<string>)

  /** A part pathlib keeps as it is: non-empty, not `.`, without a `/`. */
  predicate Named(x: string) {
    x != "" && x != "." && '/' !in x
  }

  /** The position of the first `/` in `s`, or `|s|`. */
  function SlashIndex(s: string): (r: nat)
    ensures r <= |s| && '/' !in s[..r] && (r < |s| ==> s[r] == '/')
  {
    if s == [] || s[0] == '/' then 0
    else
      var r := 1 + SlashIndex(s[1..]);
      assert s[..r] == [s[0]] + s[1..][..r - 1];
      r
  }

  /** The parts of a path string: split on `/`, dropping empty pieces and `.`. */
  function Pieces(s: string): (r: seq<string>)
    ensures forall i :: 0 <= i < |r| ==> Named(r[i])
    decreases |s|
  {
    if s == [] then []
    else
      var i := SlashIndex(s);
      var piece := if s[..i] == "" || s[..i] == "." then [] else [s[..i]];
      piece + (if i < |s| then Pieces(s[i + 1..]) else [])
  }

  /** The anchor of a path string: one leading `/`, or exactly two, or none. */
  function Anchor(s: string): string {
    if |s| >= 2 && s[0] == '/' && s[1] == '/' && (|s| == 2 || s[2] != '/') then "//"
    else if |s| >= 1 && s[0] == '/' then "/"
    else ""
  }

  /** `p / segment`: an absolute segment starts over, any other one adds its parts. */
  function Join(p: FsPath, segment: string): FsPath {
    if Anchor(segment) != "" then FsPath(Anchor(segment), Pieces(segment))
    else FsPath(p.anchor, p.parts + Pieces(segment))
  }

  /** `Path(s)` */
  function ParsePath(s: string): FsPath {
    Join(FsPath("", []), s)
  }

  /** A named segment is one part. */
  lemma PiecesOfNamed(x: string)
    requires Named(x)
    ensures Pieces(x) == [x]
  {
    assert x[..SlashIndex(x)] == x;
  }

  /** Joining a named segment appends it. */
  lemma JoinNamed(p: FsPath, x: string)
    requires Named(x)
    ensures Join(p, x) == FsPath(p.anchor, p.parts + [x])
  {
    PiecesOfNamed(x);
  }

  /** Joining an absolute segment forgets the path it is joined to. */
  lemma JoinAbsolute(p: FsPath, q: FsPath, x: string)
    requires |x| > 0 && x[0] == '/'
    ensures Join(p, x) == Join(q, x) == ParsePath(x)
  {
  }

  /** Joining `""` adds nothing. */
  lemma JoinEmpty(p: FsPath)
    ensures Join(p, "") == p
  {
  }

  /** A `/` inside a segment splits it into parts. */
  lemma SlashSplitsSegment(p: FsPath)
    ensures Join(p, "a/b") == FsPath(p.anchor, p.parts + ["a", "b"])
  {
    assert SlashIndex("a/b") == 1 && "a/b"[..1] == "a" && "a/b"[2..] == "b";
    PiecesOfNamed("b");
  }

  /** Empty pieces and `.` vanish. */
  lemma EmptyAndDotPiecesVanish(p: FsPath)
    ensures Join(p, "a//./b") == FsPath(p.anchor, p.parts + ["a", "b"])
  {
    var s := "a//./b";
    assert SlashIndex(s) == 1 && s[..1] == "a" && s[2..] == "/./b";
    assert SlashIndex("/./b") == 0 && "/./b"[1..] == "./b";
    assert SlashIndex("./b") == 1 && "./b"[..1] == "." && "./b"[2..] == "b";
    PiecesOfNamed("b");
  }

  /** Exactly two leading slashes are their own anchor; three or more are one. */
  lemma DoubleSlashAnchor()
    ensures ParsePath("//srv") == FsPath("//", ["srv"])
    ensures ParsePath("///srv") == FsPath("/", ["srv"])
  {
    assert SlashIndex("//srv") == 0 && "//srv"[1..] == "/srv";
    assert SlashIndex("///srv") == 0 && "///srv"[1..] == "//srv";
    assert SlashIndex("/srv") == 0 && "/srv"[1..] == "srv";
    PiecesOfNamed("srv");
  }

  /** `str(i)` is a named segment. */
  lemma DecimalNamed(i: int)
    ensures Named(IntToDecimal(i))
  {
    var digits := NatToDecimal(if i < 0 then -i else i);
    assert digits[0] in digits;
  }

  // ---------------------------------------------------------------------------
  // The cache path
  // ---------------------------------------------------------------------------

  /** The six segments joined under the datastore root, in order. */
  function CacheSegments(request: map<string, Json>, containerStr: Json -> string): seq<string>
    requires HasRequiredFields(request)
  {
    [
      PyStr(request["source_dataset"], containerStr),
      PyStr(request["theme"], containerStr),
      ReadingLevelSegment(request["reading_level"], containerStr),
      PyStr(request["model"], containerStr),
      PyStr(request["section"], containerStr),
      PyStr(request["seed"], containerStr) + ".json"
    ]
  }

  /** `Path(datastore) / source_dataset / theme / segment / model / section / f"{seed}.json"` */
  function CachePath(datastore: string, request: map<string, Json>, containerStr: Json -> string): FsPath
    requires HasRequiredFields(request)
  {
    var segments := CacheSegments(request, containerStr);
    Join(Join(Join(Join(Join(Join(ParsePath(datastore),
      segments[0]), segments[1]), segments[2]), segments[3]), segments[4]), segments[5])
  }

  /** What reading and parsing one cache file gives. */
  datatype CacheFile = Parsed(payload: Json) | Unreadable

  datatype LookupError =
    | RequestNotObject            // the request JSON is not a dict: indexing it raises
    | MissingField(name: string)  // "Missing required field in request JSON"
    | CacheFileNotFound(path: FsPath)
    | CacheFileUnreadable(path: FsPath)

  /** `main` after the request is parsed: the combined `{"request", "payload"}` document. */
  function LookupCachedPayload(
    request: Json, datastore: string, store: map<FsPath, CacheFile>, containerStr: Json -> string
  ): (r: Result<Json, LookupError>)
    ensures !request.JObj? ==> r == Err(RequestNotObject)
    ensures request.JObj? && !HasRequiredFields(request.fields) ==>
      r.Err? && r.error.MissingField? && r.error.name !in request.fields
      && exists i :: 0 <= i < |RequiredFields| && RequiredFields[i] == r.error.name
                     && forall j :: 0 <= j < i ==> RequiredFields[j] in request.fields
    ensures r.Ok? ==>
      request.JObj? && HasRequiredFields(request.fields)
      && var path := CachePath(datastore, request.fields, containerStr);
         path in store && store[path].Parsed?
         && r.value == JObj(map["request" := request, "payload" := store[path].payload])
    ensures request.JObj? && HasRequiredFields(request.fields)
            && CachePath(datastore, request.fields, containerStr) !in store ==>
      r == Err(CacheFileNotFound(CachePath(datastore, request.fields, containerStr)))
    ensures request.JObj? && HasRequiredFields(request.fields)
            && CachePath(datastore, request.fields, containerStr) in store ==>
      r == match store[CachePath(datastore, request.fields, containerStr)]
           case Parsed(payload) => Ok(JObj(map["request" := request, "payload" := payload]))
           case Unreadable => Err(CacheFileUnreadable(CachePath(datastore, request.fields, containerStr)))
  {
    if !request.JObj? then Err(RequestNotObject)
    else
      FirstMissingRequired(request.fields);
      var missing := FirstMissing(request.fields, RequiredFields);
      if missing.Some? then Err(MissingField(missing.value))
      else
        FirstMissingRequired(request.fields);
        var path := CachePath(datastore, request.fields, containerStr);
        if path !in store then Err(CacheFileNotFound(path))
        else match store[path]
          case Unreadable => Err(CacheFileUnreadable(path))
          case Parsed(payload) => Ok(JObj(map["request" := request, "payload" := payload]))
  }

  /** A missing cache file is reported as an error, never as an empty payload. */
  lemma AbsentFileIsNeverAPayload(
    request: Json, datastore: string, store: map<FsPath, CacheFile>, containerStr: Json -> string
  )
    requires request.JObj? && HasRequiredFields(request.fields)
    requires CachePath(datastore, request.fields, containerStr) !in store
    ensures LookupCachedPayload(request, datastore, store, containerStr).Err?
  {
  }

  /**
   * When every segment is a single named part, the path is the datastore root
   * followed by exactly the six segments, in the fixed order.
   */
  lemma CachePathLayout(datastore: string, request: map<string, Json>, containerStr: Json -> string)
    requires HasRequiredFields(request)
    requires forall i :: 0 <= i < 6 ==> Named(CacheSegments(request, containerStr)[i])
    ensures var root := ParsePath(datastore);
      CachePath(datastore, request, containerStr) == FsPath(root.anchor, root.parts + [
        PyStr(request["source_dataset"], containerStr),
        PyStr(request["theme"], containerStr),
        ReadingLevelSegment(request["reading_level"], containerStr),
        PyStr(request["model"], containerStr),
        PyStr(request["section"], containerStr),
        PyStr(request["seed"], containerStr) + ".json"])
  {
    var g := CacheSegments(request, containerStr);
    var root := ParsePath(datastore);
    JoinNamed(root, g[0]);
    var p1 := Join(root, g[0]);
    JoinNamed(p1, g[1]);
    var p2 := Join(p1, g[1]);
    JoinNamed(p2, g[2]);
    var p3 := Join(p2, g[2]);
    JoinNamed(p3, g[3]);
    var p4 := Join(p3, g[3]);
    JoinNamed(p4, g[4]);
    var p5 := Join(p4, g[4]);
    JoinNamed(p5, g[5]);
    assert p5.parts == root.parts + g[..5];
  }

  /**
   * A seed whose `str` starts with `/` makes the last segment absolute: the
   * path is that segment alone, whatever the datastore and the other fields.
   */
  lemma AbsoluteSeedOverridesPath(datastore: string, request: map<string, Json>, containerStr: Json -> string)
    requires HasRequiredFields(request)
    requires |PyStr(request["seed"], containerStr)| > 0 && PyStr(request["seed"], containerStr)[0] == '/'
    ensures CachePath(datastore, request, containerStr) == ParsePath(PyStr(request["seed"], containerStr) + ".json")
  {
  }

  /** Distinct integers print differently, which is what keeps distinct sections and seeds apart on disk. */
  lemma {:induction false} NatToDecimalInjective(a: nat, b: nat)
    requires NatToDecimal(a) == NatToDecimal(b)
    ensures a == b
    decreases a
  {
    if a >= 10 && b >= 10 {
      var sa, sb := NatToDecimal(a), NatToDecimal(b);
      assert sa[|sa| - 1] == DigitChar(a % 10) && sb[|sb| - 1] == DigitChar(b % 10);
      assert a % 10 == b % 10;
      assert NatToDecimal(a / 10) == sa[..|sa| - 1] == sb[..|sb| - 1] == NatToDecimal(b / 10);
      NatToDecimalInjective(a / 10, b / 10);
    } else if a < 10 && b < 10 {
      assert DigitChar(a) == NatToDecimal(a)[0] == NatToDecimal(b)[0] == DigitChar(b);
    }
  }

  /** `str(i)` starts with a minus sign exactly for negative `i`. */
  lemma DecimalSign(i: int)
    ensures |IntToDecimal(i)| > 0 && (IntToDecimal(i)[0] == '-' <==> i < 0)
  {
    var digits := NatToDecimal(if i < 0 then -i else i);
    assert digits[0] in digits;
  }

  lemma IntToDecimalInjective(a: int, b: int)
    requires IntToDecimal(a) == IntToDecimal(b)
    ensures a == b
  {
    DecimalSign(a);
    DecimalSign(b);
    if a < 0 && b < 0 {
      assert NatToDecimal(-a) == IntToDecimal(a)[1..] == IntToDecimal(b)[1..] == NatToDecimal(-b);
      NatToDecimalInjective(-a, -b);
    } else if 0 <= a && 0 <= b {
      NatToDecimalInjective(a, b);
    }
  }

  /**
   * Two requests that differ only in an integer section are cached at
   * different paths, unless the seed's `str` starts with `/` (then the section
   * is forgotten, see `AbsoluteSeedOverridesPath`).
   */
  lemma SectionSeparatesCachePaths(
    datastore: string, request: map<string, Json>, s1: int, s2: int, containerStr: Json -> string
  )
    requires HasRequiredFields(request)
    requires PyStr(request["seed"], containerStr) == "" || PyStr(request["seed"], containerStr)[0] != '/'
    requires s1 != s2
    ensures CachePath(datastore, request["section" := JInt(s1)], containerStr)
         != CachePath(datastore, request["section" := JInt(s2)], containerStr)
  {
    var r1, r2 := request["section" := JInt(s1)], request["section" := JInt(s2)];
    var g1, g2 := CacheSegments(r1, containerStr), CacheSegments(r2, containerStr);
    assert g1[..4] == g2[..4] && g1[5] == g2[5];
    var q := Join(Join(Join(Join(ParsePath(datastore), g1[0]), g1[1]), g1[2]), g1[3]);
    DecimalNamed(s1);
    DecimalNamed(s2);
    JoinNamed(q, IntToDecimal(s1));
    JoinNamed(q, IntToDecimal(s2));
    var tail := Pieces(g1[5]);
    assert Anchor(g1[5]) == "";
    var p1, p2 := CachePath(datastore, r1, containerStr), CachePath(datastore, r2, containerStr);
    assert p1.parts == q.parts + [IntToDecimal(s1)] + tail;
    assert p2.parts == q.parts + [IntToDecimal(s2)] + tail;
    if p1 == p2 {
      assert p1.parts[|q.parts|] == IntToDecimal(s1) && p2.parts[|q.parts|] == IntToDecimal(s2);
      IntToDecimalInjective(s1, s2);
    }
  }
}
