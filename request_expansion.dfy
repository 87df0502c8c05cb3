/**
 * Phase 3: expand a terse worksheet request into the canonical document sent
 * to the sentence generator. The document carries a content-addressed key and
 * checksum for the whole request (`doc_key`, `doc_checksum`) and one per
 * vocabulary entry (`key`, `checksum`), in the entries' own order.
 *
 * SHA-256 is not modelled: `sha` stands for "UTF-8 encode, then
 * `hashlib.sha256(..).hexdigest()`", of which the model only knows that it is
 * a function returning 64 lower-case hexadecimal digits.
 */
module RequestExpansion {
  import opened PyJson
  import opened Results
  import CacheLookup
  import Text

  predicate IsLowerHex(c: char) {
    '0' <= c <= '9' || 'a' <= c <= 'f'
  }

  /** A SHA-256 hex digest. */
  type Digest = s: string | |s| == 64 && forall c :: c in s ==> IsLowerHex(c)
    witness seq(64, _ => '0')

  /** `sha256_prefix_16`: the first 16 digits of the digest. */
  function Sha256Prefix16(sha: string -> Digest, s: string): (r: string)
    ensures |r| == 16 && r <= sha(s)
    ensures forall c :: c in r ==> IsLowerHex(c)
  {
    sha(s)[..16]
  }

  datatype BuildError =
    | NotAnObject(what: string)      // a value used as a dict is not one (AttributeError / TypeError)
    | NotIterable(what: string)      // `for x in v` on a number, bool or None (TypeError)
    | KeyMissing(key: string)        // `d[key]` on a dict without it (KeyError)
    | NotAString(field: string)      // `"|".join` meets a non-str item (TypeError)
    | SectionNumberMissing
    | HeaderOrFooterMissing
    | ReadingLevelNotObject
    | ReadingLevelIncomplete
    | SectionNotFound(number: Json)

  // ---------------------------------------------------------------------------
  // find_section
  // ---------------------------------------------------------------------------

  /** `section.get("section") == section_number`, for a section that is a dict. */
  predicate SectionMatches(section: Json, number: Json) {
    section.JObj? && PyEq(Get(section.fields, "section"), number)
  }

  /** What `for x in v` sees: a list's items, or only whether a str/dict is empty. */
  datatype Iterated = Elements(items: seq<Json>) | NonEmptyStrings | NotIterableValue

  /**
   * Iterating a `str` or a `dict` yields strings (characters, keys); every
   * caller here fails on the first string it meets, so only emptiness matters.
   */
  function Iterate(v: Json): Iterated {
    match v
    case JArr(xs) => Elements(xs)
    case JStr(s) => if |s| == 0 then Elements([]) else NonEmptyStrings
    case JObj(m) => if |m| == 0 then Elements([]) else NonEmptyStrings
    case _ => NotIterableValue
  }

  /** The `sections` list of a dataset (`dataset.get("sections", [])`). */
  function Sections(dataset: Json): Json
    requires dataset.JObj?
  {
    GetOr(dataset.fields, "sections", JArr([]))
  }

  /** `find_section`: the first section whose `section` equals the number. */
  method FindSection(dataset: Json, number: Json) returns (r: Result<Json, BuildError>)
    ensures !dataset.JObj? ==> r == Err(NotAnObject("dataset"))
    ensures dataset.JObj? && Iterate(Sections(dataset)).Elements? ==>
      var sections := Iterate(Sections(dataset)).items;
      && (r.Ok? ==> exists i :: 0 <= i < |sections| && r.value == sections[i]
                                && SectionMatches(sections[i], number)
                                && forall j :: 0 <= j < i ==> sections[j].JObj? && !SectionMatches(sections[j], number))
      && (r == Err(SectionNotFound(number)) <==>
            forall j :: 0 <= j < |sections| ==> sections[j].JObj? && !SectionMatches(sections[j], number))
      && (r.Err? && r.error != SectionNotFound(number) ==>
            r.error == NotAnObject("section")
            && exists i :: 0 <= i < |sections| && !sections[i].JObj?
                           && forall j :: 0 <= j < i ==> sections[j].JObj? && !SectionMatches(sections[j], number))
    ensures dataset.JObj? && Iterate(Sections(dataset)) == NonEmptyStrings ==> r == Err(NotAnObject("section"))
    ensures dataset.JObj? && Iterate(Sections(dataset)) == NotIterableValue ==> r == Err(NotIterable("sections"))
  {
    if !dataset.JObj? {
      return Err(NotAnObject("dataset"));
    }
    match Iterate(Sections(dataset))
    case NonEmptyStrings =>
      return Err(NotAnObject("section"));
    case NotIterableValue =>
      return Err(NotIterable("sections"));
    case Elements(sections) =>
      var i := 0;
      while i < |sections|
        invariant 0 <= i <= |sections|
        invariant forall j :: 0 <= j < i ==> sections[j].JObj? && !SectionMatches(sections[j], number)
      {
        if !sections[i].JObj? {
          return Err(NotAnObject("section"));
        }
        if PyEq(Get(sections[i].fields, "section"), number) {
          return Ok(sections[i]);
        }
        i := i + 1;
      }
      return Err(SectionNotFound(number));
  }

  // ---------------------------------------------------------------------------
  // build_reading_level_token
  // ---------------------------------------------------------------------------

  /** `build_reading_level_token`: `{system}-{level}`. */
  function ReadingLevelToken(readingLevel: Json, containerStr: Json -> string): Result<string, BuildError> {
    if !readingLevel.JObj? then Err(ReadingLevelNotObject)
    else if Get(readingLevel.fields, "system") == JNull || Get(readingLevel.fields, "level") == JNull then
      Err(ReadingLevelIncomplete)
    else
      Ok(PyStr(readingLevel.fields["system"], containerStr) + "-" + PyStr(readingLevel.fields["level"], containerStr))
  }

  /**
   * The token and phase 2's cache-path segment accept exactly the same reading
   * levels, and spell them alike except for the separator (`-` here, `_` there).
   */
  lemma TokenAgreesWithSegment(readingLevel: Json, containerStr: Json -> string)
    ensures ReadingLevelToken(readingLevel, containerStr).Ok? <==> CacheLookup.HasSystemAndLevel(readingLevel)
    ensures ReadingLevelToken(readingLevel, containerStr).Ok? ==>
      var t := ReadingLevelToken(readingLevel, containerStr).value;
      var g := CacheLookup.ReadingLevelSegment(readingLevel, containerStr);
      var n := |PyStr(readingLevel.fields["system"], containerStr)|;
      |t| == |g| && n < |t| && t[n] == '-' && g[n] == '_'
      && forall i :: 0 <= i < |t| && i != n ==> t[i] == g[i]
  {
  }

  // ---------------------------------------------------------------------------
  // build_output
  // ---------------------------------------------------------------------------

  /** The document-level fields `build_output` derives before it expands the entries. */
  datatype DocHeader = DocHeader(sectionNumber: Json, header: Json, footer: Json, docKey: string, docChecksum: string)

  /**
   * `"section" in metadata` for a non-dict `metadata`: membership in a list,
   * substring of a str, and a TypeError on anything else.
   */
  function ContainsSectionKey(metadata: Json): Option<bool> {
    match metadata
    case JArr(xs) => Some(exists i :: 0 <= i < |xs| && PyEq(xs[i], JStr("section")))
    case JStr(s) => Some(Text.Occurs(s, "section"))
    case _ => None
  }

  /**
   * `build_output` up to the entry loop: read the request fields, pick the
   * section number (`metadata.section` when that key exists, else the
   * top-level `section`), check header and footer, and build
   * `doc_key = source_dataset|reading_level_token|model|theme|str(seed)` and
   * its checksum. The section number is not part of `doc_key`.
   */
  function PrepareDocument(request: Json, sha: string -> Digest, containerStr: Json -> string): Result<DocHeader, BuildError> {
    if !request.JObj? then Err(NotAnObject("request"))
    else
      var req := request.fields;
      if "source_dataset" !in req then Err(KeyMissing("source_dataset"))
      else if "reading_level" !in req then Err(KeyMissing("reading_level"))
      else if "theme" !in req then Err(KeyMissing("theme"))
      else if "model" !in req then Err(KeyMissing("model"))
      else if "seed" !in req then Err(KeyMissing("seed"))
      else
        var metadata := GetOr(req, "metadata", JObj(map[]));
        if !metadata.JObj? then
          // `"section" in metadata` raises, or `metadata["section"]` / `metadata.get` does.
          var hasKey := ContainsSectionKey(metadata);
          if hasKey == Some(false) && Get(req, "section") == JNull then Err(SectionNumberMissing)
          else Err(NotAnObject("metadata"))
        else
          var sectionNumber := if "section" in metadata.fields then metadata.fields["section"] else Get(req, "section");
          if sectionNumber == JNull then Err(SectionNumberMissing)
          else if Get(metadata.fields, "header") == JNull || Get(metadata.fields, "footer") == JNull then
            Err(HeaderOrFooterMissing)
          else match ReadingLevelToken(req["reading_level"], containerStr)
            case Err(e) => Err(e)
            case Ok(token) =>
              if !req["source_dataset"].JStr? then Err(NotAString("source_dataset"))
              else if !req["model"].JStr? then Err(NotAString("model"))
              else if !req["theme"].JStr? then Err(NotAString("theme"))
              else
                var docKey := req["source_dataset"].s + "|" + token + "|" + req["model"].s + "|"
                              + req["theme"].s + "|" + PyStr(req["seed"], containerStr);
                Ok(DocHeader(sectionNumber, metadata.fields["header"], metadata.fields["footer"],
                             docKey, Sha256Prefix16(sha, docKey)))
  }

  /** One item of `data`: the entry's fields plus its `key` and `checksum`. */
  function Item(word: string, pos: string, definition: string, defNum: Json, key: string, checksum: string): Json {
    JObj(map[
      "word" := JStr(word),
      "part_of_speech" := JStr(pos),
      "definition" := JStr(definition),
      "def_num" := defNum,
      "key" := JStr(key),
      "checksum" := JStr(checksum)
    ])
  }

  /** The `checksum` of an item built by `ExpandEntry`. */
  function ChecksumOf(item: Json): Json {
    if item.JObj? then Get(item.fields, "checksum") else JNull
  }

  /** An entry the loop accepts: a dict whose `word`, `part_of_speech` and `definition` are strings. */
  predicate ValidEntry(entry: Json) {
    && entry.JObj?
    && "word" in entry.fields && entry.fields["word"].JStr?
    && "part_of_speech" in entry.fields && entry.fields["part_of_speech"].JStr?
    && "definition" in entry.fields && entry.fields["definition"].JStr?
  }

  /** `key = doc_key|word|part_of_speech|definition` */
  function EntryKey(docKey: string, entry: Json): string
    requires ValidEntry(entry)
  {
    docKey + "|" + entry.fields["word"].s + "|" + entry.fields["part_of_speech"].s + "|" + entry.fields["definition"].s
  }

  /**
   * One turn of the entry loop: the item with its `key` and
   * `checksum = sha256_prefix_16(key)`; a missing field is a KeyError and a
   * non-string one a TypeError from the join.
   */
  function ExpandEntry(docKey: string, entry: Json, sha: string -> Digest): (r: Result<Json, BuildError>)
    ensures r.Ok? <==> ValidEntry(entry)
  {
    if !entry.JObj? then Err(NotAnObject("entry"))
    else
      var e := entry.fields;
      if "word" !in e then Err(KeyMissing("word"))
      else if "part_of_speech" !in e then Err(KeyMissing("part_of_speech"))
      else if "definition" !in e then Err(KeyMissing("definition"))
      else if !e["word"].JStr? then Err(NotAString("word"))
      else if !e["part_of_speech"].JStr? then Err(NotAString("part_of_speech"))
      else if !e["definition"].JStr? then Err(NotAString("definition"))
      else
        var key := EntryKey(docKey, entry);
        Ok(Item(e["word"].s, e["part_of_speech"].s, e["definition"].s, Get(e, "def_num"), key, Sha256Prefix16(sha, key)))
  }

  /**
   * An expanded item keeps the entry's word, part of speech and definition,
   * takes `def_num` (None when absent), and adds a key that extends
   * `doc_key|` and the 16-digit checksum of that key.
   */
  lemma ExpandedItem(docKey: string, entry: Json, sha: string -> Digest)
    requires ValidEntry(entry)
    ensures var item := ExpandEntry(docKey, entry, sha).value;
      var key := EntryKey(docKey, entry);
      && item.JObj? && item.fields.Keys == {"word", "part_of_speech", "definition", "def_num", "key", "checksum"}
      && item.fields["word"] == entry.fields["word"]
      && item.fields["part_of_speech"] == entry.fields["part_of_speech"]
      && item.fields["definition"] == entry.fields["definition"]
      && item.fields["def_num"] == Get(entry.fields, "def_num")
      && item.fields["key"] == JStr(key) && docKey + "|" <= key
      && item.fields["checksum"] == JStr(Sha256Prefix16(sha, key))
  {
  }

  /** The entry loop: every entry expanded in order, or the first invalid entry's failure. */
  function ExpandEntries(docKey: string, entries: seq<Json>, sha: string -> Digest): (r: Result<seq<Json>, BuildError>)
    ensures r.Ok? <==> forall i :: 0 <= i < |entries| ==> ValidEntry(entries[i])
    ensures r.Ok? ==> |r.value| == |entries|
                      && forall i :: 0 <= i < |entries| ==> r.value[i] == ExpandEntry(docKey, entries[i], sha).value
    ensures r.Err? ==> exists i :: 0 <= i < |entries| && ExpandEntry(docKey, entries[i], sha) == Err(r.error)
                                   && forall j :: 0 <= j < i ==> ValidEntry(entries[j])
  {
    if entries == [] then Ok([])
    else
      var init := entries[..|entries| - 1];
      var last := entries[|entries| - 1];
      assert forall i :: 0 <= i < |init| ==> init[i] == entries[i];
      match ExpandEntries(docKey, init, sha)
      case Err(e) => Err(e)
      case Ok(items) =>
        match ExpandEntry(docKey, last, sha)
        case Err(e) => Err(e)
        case Ok(item) => Ok(items + [item])
  }

  /** The output document of `build_output`. */
  function Document(request: map<string, Json>, h: DocHeader, items: seq<Json>): Json
    requires "source_dataset" in request && "reading_level" in request && "theme" in request
    requires "model" in request && "seed" in request
  {
    JObj(map[
      "type" := GetOr(request, "type", JStr("build_request")),
      "source_dataset" := request["source_dataset"],
      "reading_level" := request["reading_level"],
      "theme" := request["theme"],
      "model" := request["model"],
      "seed" := request["seed"],
      "doc_key" := JStr(h.docKey),
      "doc_checksum" := JStr(h.docChecksum),
      "metadata" := JObj(map["section" := h.sectionNumber, "header" := h.header, "footer" := h.footer]),
      "data" := JArr(items)
    ])
  }

  lemma PrepareDocumentFields(request: Json, sha: string -> Digest, containerStr: Json -> string)
    requires PrepareDocument(request, sha, containerStr).Ok?
    ensures request.JObj?
    ensures "source_dataset" in request.fields && "reading_level" in request.fields && "theme" in request.fields
    ensures "model" in request.fields && "seed" in request.fields
  {
  }

  /** `build_output` as a value: the header, then the entries, then the document. */
  function BuildOutputSpec(request: Json, entries: seq<Json>, sha: string -> Digest, containerStr: Json -> string): Result<Json, BuildError> {
    match PrepareDocument(request, sha, containerStr)
    case Err(e) => Err(e)
    case Ok(h) =>
      PrepareDocumentFields(request, sha, containerStr);
      match ExpandEntries(h.docKey, entries, sha)
      case Err(e) => Err(e)
      case Ok(items) => Ok(Document(request.fields, h, items))
  }

  /** `build_output`, with its append loop over the entries. */
  method BuildOutput(request: Json, entries: seq<Json>, sha: string -> Digest, containerStr: Json -> string)
    returns (r: Result<Json, BuildError>)
    ensures r == BuildOutputSpec(request, entries, sha, containerStr)
  {
    var prepared := PrepareDocument(request, sha, containerStr);
    if prepared.Err? {
      return Err(prepared.error);
    }
    var h := prepared.value;
    PrepareDocumentFields(request, sha, containerStr);
    var items: seq<Json> := [];
    for i := 0 to |entries|
      invariant ExpandEntries(h.docKey, entries[..i], sha) == Ok(items)
    {
      assert entries[..i + 1][..i] == entries[..i];
      var item := ExpandEntry(h.docKey, entries[i], sha);
      if item.Err? {
        assert ExpandEntries(h.docKey, entries[..i + 1], sha) == Err(item.error);
        assert ExpandEntries(h.docKey, entries[..i + 1], sha).Err?;
        ExpandEntriesPrefixErr(h.docKey, entries, i + 1, sha);
        return Err(item.error);
      }
      items := items + [item.value];
    }
    assert entries[..|entries|] == entries;
    return Ok(Document(request.fields, h, items));
  }

  /** Once a prefix fails, the whole list fails with the same error. */
  lemma {:induction false} ExpandEntriesPrefixErr(docKey: string, entries: seq<Json>, k: nat, sha: string -> Digest)
    requires k <= |entries|
    requires ExpandEntries(docKey, entries[..k], sha).Err?
    ensures ExpandEntries(docKey, entries, sha) == ExpandEntries(docKey, entries[..k], sha)
    decreases |entries| - k
  {
    if k < |entries| {
      assert entries[..k + 1][..k] == entries[..k];
      ExpandEntriesPrefixErr(docKey, entries, k + 1, sha);
    } else {
      assert entries[..k] == entries;
    }
  }

  // ---------------------------------------------------------------------------
  // main
  // ---------------------------------------------------------------------------

  /** Every section before position `i` is a dict whose `section` differs from the number. */
  predicate PrefixUnmatched(sections: seq<Json>, number: Json, i: int)
    requires i <= |sections|
  {
    forall j :: 0 <= j < i ==> sections[j].JObj? && !SectionMatches(sections[j], number)
  }

  /** `find_section` returns the section at `i`: the first one that matches. */
  predicate FirstMatchAt(sections: seq<Json>, number: Json, i: int) {
    0 <= i < |sections| && SectionMatches(sections[i], number) && PrefixUnmatched(sections, number, i)
  }

  /** `find_section` fails on the non-dict at `i` before any section matched. */
  predicate FirstNonDictAt(sections: seq<Json>, number: Json, i: int) {
    0 <= i < |sections| && !sections[i].JObj? && PrefixUnmatched(sections, number, i)
  }

  /** The request passes `main`'s own checks: a dict with `source_dataset` and a non-None `section`. */
  predicate PassesRequestChecks(request: Json) {
    request.JObj? && "source_dataset" in request.fields && Get(request.fields, "section") != JNull
  }

  /**
   * `build_output(request, section.get("entries", []))`: the document for a
   * list of entries; a string or dict of entries fails in the loop, after the
   * document header is prepared.
   */
  function SectionOutput(request: Json, section: Json, sha: string -> Digest, containerStr: Json -> string): Result<Json, BuildError>
    requires section.JObj?
  {
    match Iterate(GetOr(section.fields, "entries", JArr([])))
    case Elements(entries) => BuildOutputSpec(request, entries, sha, containerStr)
    case NonEmptyStrings =>
      var prepared := PrepareDocument(request, sha, containerStr);
      if prepared.Err? then Err(prepared.error) else Err(NotAnObject("entry"))
    case NotIterableValue =>
      var prepared := PrepareDocument(request, sha, containerStr);
      if prepared.Err? then Err(prepared.error) else Err(NotIterable("entries"))
  }

  /** A section gives a document only when its `entries` is a list, and then the document is built from that list. */
  lemma SectionOutputOk(request: Json, section: Json, sha: string -> Digest, containerStr: Json -> string)
    requires section.JObj? && SectionOutput(request, section, sha, containerStr).Ok?
    ensures Iterate(GetOr(section.fields, "entries", JArr([]))).Elements?
    ensures SectionOutput(request, section, sha, containerStr)
         == BuildOutputSpec(request, Iterate(GetOr(section.fields, "entries", JArr([]))).items, sha, containerStr)
  {
  }

  /**
   * `main` after the request and the dataset are loaded: look the section up by
   * the request's top-level `section`, then build the document from its
   * `entries` (which `build_output` labels with `metadata.section` when present).
   */
  method BuildRequest(request: Json, dataset: Json, sha: string -> Digest, containerStr: Json -> string)
    returns (r: Result<Json, BuildError>)
    ensures !request.JObj? ==> r == Err(NotAnObject("request"))
    ensures request.JObj? && "source_dataset" !in request.fields ==> r == Err(KeyMissing("source_dataset"))
    ensures request.JObj? && "source_dataset" in request.fields && Get(request.fields, "section") == JNull ==>
      r == Err(SectionNumberMissing)
    ensures PassesRequestChecks(request) && !dataset.JObj? ==> r == Err(NotAnObject("dataset"))
    ensures PassesRequestChecks(request) && dataset.JObj? && Iterate(Sections(dataset)) == NonEmptyStrings ==>
      r == Err(NotAnObject("section"))
    ensures PassesRequestChecks(request) && dataset.JObj? && Iterate(Sections(dataset)) == NotIterableValue ==>
      r == Err(NotIterable("sections"))
    ensures PassesRequestChecks(request) && dataset.JObj? && Iterate(Sections(dataset)).Elements? ==>
      var sections := Iterate(Sections(dataset)).items;
      var number := Get(request.fields, "section");
      && (PrefixUnmatched(sections, number, |sections|) ==> r == Err(SectionNotFound(number)))
      && (forall i :: FirstNonDictAt(sections, number, i) ==> r == Err(NotAnObject("section")))
      && (forall i :: FirstMatchAt(sections, number, i) ==> r == SectionOutput(request, sections[i], sha, containerStr))
    ensures r.Ok? ==>
      PassesRequestChecks(request) && dataset.JObj? && Iterate(Sections(dataset)).Elements?
      && exists i :: FirstMatchAt(Iterate(Sections(dataset)).items, Get(request.fields, "section"), i)
  {
    if !request.JObj? {
      return Err(NotAnObject("request"));
    }
    if "source_dataset" !in request.fields {
      return Err(KeyMissing("source_dataset"));
    }
    var number := Get(request.fields, "section");
    if number == JNull {
      return Err(SectionNumberMissing);
    }
    var found := FindSection(dataset, number);
    if dataset.JObj? && Iterate(Sections(dataset)).Elements? {
      var sections := Iterate(Sections(dataset)).items;
      if found.Ok? {
        var i :| 0 <= i < |sections| && found.value == sections[i] && SectionMatches(sections[i], number)
                 && forall j :: 0 <= j < i ==> sections[j].JObj? && !SectionMatches(sections[j], number);
        assert FirstMatchAt(sections, number, i);
      } else if found.error != SectionNotFound(number) {
        var i :| 0 <= i < |sections| && !sections[i].JObj?
                 && forall j :: 0 <= j < i ==> sections[j].JObj? && !SectionMatches(sections[j], number);
        assert FirstNonDictAt(sections, number, i);
      }
      FirstFoundUnique(sections, number, found);
    }
    if found.Err? {
      return Err(found.error);
    }
    var section := found.value;
    match Iterate(GetOr(section.fields, "entries", JArr([])))
    case Elements(entries) =>
      r := BuildOutput(request, entries, sha, containerStr);
    case NonEmptyStrings =>
      var prepared := PrepareDocument(request, sha, containerStr);
      r := if prepared.Err? then Err(prepared.error) else Err(NotAnObject("entry"));
    case NotIterableValue =>
      var prepared := PrepareDocument(request, sha, containerStr);
      r := if prepared.Err? then Err(prepared.error) else Err(NotIterable("entries"));
  }

  /**
   * The three outcomes of the section search exclude each other: a found
   * section is the only first match and no non-dict comes before it, and an
   * error means no section is a first match.
   */
  lemma FirstFoundUnique(sections: seq<Json>, number: Json, found: Result<Json, BuildError>)
    requires found.Ok? ==> exists i :: FirstMatchAt(sections, number, i) && found.value == sections[i]
    requires found == Err(SectionNotFound(number)) <==> PrefixUnmatched(sections, number, |sections|)
    requires found.Err? && found.error != SectionNotFound(number) ==>
      found.error == NotAnObject("section") && exists i :: FirstNonDictAt(sections, number, i)
    ensures found.Ok? ==> found.value.JObj? && forall i :: FirstMatchAt(sections, number, i) ==> found.value == sections[i]
    ensures found.Ok? ==> forall i :: !FirstNonDictAt(sections, number, i)
    ensures found.Err? ==> forall i :: !FirstMatchAt(sections, number, i)
    ensures found.Err? && !PrefixUnmatched(sections, number, |sections|) ==> found == Err(NotAnObject("section"))
  {
    if found.Ok? {
      var k :| FirstMatchAt(sections, number, k) && found.value == sections[k];
      forall i | FirstMatchAt(sections, number, i) ensures found.value == sections[i] {
        assert !(i < k) && !(k < i);
      }
      forall i ensures !FirstNonDictAt(sections, number, i) {
      }
    } else if found == Err(SectionNotFound(number)) {
      forall i ensures !FirstMatchAt(sections, number, i) {
        if 0 <= i < |sections| {
          assert !SectionMatches(sections[i], number);
        }
      }
    } else {
      var k :| FirstNonDictAt(sections, number, k);
      forall i ensures !FirstMatchAt(sections, number, i) {
      }
    }
  }

  // ---------------------------------------------------------------------------
  // Properties of the expansion
  // ---------------------------------------------------------------------------

  /** `a` and `b` both hold the five fields `doc_key` is built from, with equal values. */
  predicate AgreeOnKeyedFields(a: map<string, Json>, b: map<string, Json>) {
    && "source_dataset" in a && "source_dataset" in b && a["source_dataset"] == b["source_dataset"]
    && "reading_level" in a && "reading_level" in b && a["reading_level"] == b["reading_level"]
    && "theme" in a && "theme" in b && a["theme"] == b["theme"]
    && "model" in a && "model" in b && a["model"] == b["model"]
    && "seed" in a && "seed" in b && a["seed"] == b["seed"]
  }

  /**
   * The section number is not part of `doc_key`: two requests that agree on
   * the five keyed fields get the same `doc_key` and `doc_checksum`, whatever
   * their sections, headers and footers.
   */
  lemma DocKeyIgnoresSection(r1: Json, r2: Json, sha: string -> Digest, containerStr: Json -> string)
    requires PrepareDocument(r1, sha, containerStr).Ok? && PrepareDocument(r2, sha, containerStr).Ok?
    requires r1.JObj? && r2.JObj? && AgreeOnKeyedFields(r1.fields, r2.fields)
    ensures PrepareDocument(r1, sha, containerStr).value.docKey == PrepareDocument(r2, sha, containerStr).value.docKey
    ensures PrepareDocument(r1, sha, containerStr).value.docChecksum == PrepareDocument(r2, sha, containerStr).value.docChecksum
  {
    DocKeyLayout(r1, sha, containerStr);
    DocKeyLayout(r2, sha, containerStr);
  }

  /**
   * `doc_key` is the five fields joined by `|`, in the order source_dataset,
   * reading-level token, model, theme, seed; `doc_checksum` is its 16-digit hash prefix.
   */
  lemma DocKeyLayout(request: Json, sha: string -> Digest, containerStr: Json -> string)
    requires PrepareDocument(request, sha, containerStr).Ok?
    ensures request.JObj?
    ensures var req := request.fields;
      && "source_dataset" in req && req["source_dataset"].JStr?
      && "model" in req && req["model"].JStr? && "theme" in req && req["theme"].JStr?
      && "reading_level" in req && ReadingLevelToken(req["reading_level"], containerStr).Ok?
      && "seed" in req
      && var h := PrepareDocument(request, sha, containerStr).value;
         && h.docKey == req["source_dataset"].s + "|" + ReadingLevelToken(req["reading_level"], containerStr).value
                        + "|" + req["model"].s + "|" + req["theme"].s + "|" + PyStr(req["seed"], containerStr)
         && h.docChecksum == sha(h.docKey)[..16]
  {
  }

  /**
   * The section number comes from `metadata.section` when that key exists
   * (even if it differs from the top-level `section`), otherwise from the
   * top-level `section`.
   */
  lemma SectionNumberSource(request: Json, sha: string -> Digest, containerStr: Json -> string)
    requires PrepareDocument(request, sha, containerStr).Ok?
    ensures request.JObj? && "metadata" in request.fields ==> request.fields["metadata"].JObj?
    ensures var req := request.fields;
      var metadata := GetOr(req, "metadata", JObj(map[]));
      var n := PrepareDocument(request, sha, containerStr).value.sectionNumber;
      && metadata.JObj?
      && n != JNull
      && ("section" in metadata.fields ==> n == metadata.fields["section"])
      && ("section" !in metadata.fields ==> n == req["section"])
  {
  }

  /** Neither `metadata.section` nor `section` given, or `header`/`footer` missing, is an error. */
  lemma MissingSectionOrHeaderIsError(request: map<string, Json>, sha: string -> Digest, containerStr: Json -> string)
    requires "metadata" in request && request["metadata"].JObj?
    requires var metadata := request["metadata"].fields;
      || ("section" !in metadata && Get(request, "section") == JNull)
      || Get(metadata, "header") == JNull || Get(metadata, "footer") == JNull
    ensures PrepareDocument(JObj(request), sha, containerStr).Err?
  {
  }

  /**
   * The output copies the request's identifying fields, defaults `type` to
   * "build_request", and carries the document key, checksum and metadata.
   */
  lemma OutputCopiesRequest(request: Json, entries: seq<Json>, sha: string -> Digest, containerStr: Json -> string)
    requires BuildOutputSpec(request, entries, sha, containerStr).Ok?
    ensures request.JObj? && PrepareDocument(request, sha, containerStr).Ok?
    ensures var out := BuildOutputSpec(request, entries, sha, containerStr).value;
      var h := PrepareDocument(request, sha, containerStr).value;
      && out.JObj? && AgreeOnKeyedFields(out.fields, request.fields)
      && "type" in out.fields && out.fields["type"] == GetOr(request.fields, "type", JStr("build_request"))
      && "doc_key" in out.fields && out.fields["doc_key"] == JStr(h.docKey)
      && "doc_checksum" in out.fields && out.fields["doc_checksum"] == JStr(h.docChecksum)
      && "metadata" in out.fields
      && out.fields["metadata"] == JObj(map["section" := h.sectionNumber, "header" := h.header, "footer" := h.footer])
  {
    PrepareDocumentFields(request, sha, containerStr);
    var h := PrepareDocument(request, sha, containerStr).value;
    var items := ExpandEntries(h.docKey, entries, sha).value;
    assert BuildOutputSpec(request, entries, sha, containerStr).value == Document(request.fields, h, items);
    DocumentFields(request.fields, h, items);
  }

  lemma DocumentFields(request: map<string, Json>, h: DocHeader, items: seq<Json>)
    requires "source_dataset" in request && "reading_level" in request && "theme" in request
    requires "model" in request && "seed" in request
    ensures var out := Document(request, h, items);
      && out.JObj? && AgreeOnKeyedFields(out.fields, request)
      && "type" in out.fields && out.fields["type"] == GetOr(request, "type", JStr("build_request"))
      && "doc_key" in out.fields && out.fields["doc_key"] == JStr(h.docKey)
      && "doc_checksum" in out.fields && out.fields["doc_checksum"] == JStr(h.docChecksum)
      && "metadata" in out.fields
      && out.fields["metadata"] == JObj(map["section" := h.sectionNumber, "header" := h.header, "footer" := h.footer])
  {
  }

  /** `data` holds one item per entry, in the entries' order. */
  lemma OutputData(request: Json, entries: seq<Json>, sha: string -> Digest, containerStr: Json -> string)
    requires BuildOutputSpec(request, entries, sha, containerStr).Ok?
    ensures PrepareDocument(request, sha, containerStr).Ok?
    ensures var out := BuildOutputSpec(request, entries, sha, containerStr).value;
      var h := PrepareDocument(request, sha, containerStr).value;
      && out.JObj? && "data" in out.fields && out.fields["data"].JArr?
      && |out.fields["data"].items| == |entries|
      && forall i :: 0 <= i < |entries| ==> Ok(out.fields["data"].items[i]) == ExpandEntry(h.docKey, entries[i], sha)
  {
    PrepareDocumentFields(request, sha, containerStr);
    var h := PrepareDocument(request, sha, containerStr).value;
    var items := ExpandEntries(h.docKey, entries, sha).value;
    forall i | 0 <= i < |entries| ensures Ok(items[i]) == ExpandEntry(h.docKey, entries[i], sha) {
    }
  }

  /** Every item key starts with `doc_key|`, and every item checksum is 16 hex digits. */
  lemma ItemKeysExtendDocKey(request: Json, entries: seq<Json>, sha: string -> Digest, containerStr: Json -> string)
    requires BuildOutputSpec(request, entries, sha, containerStr).Ok?
    ensures var out := BuildOutputSpec(request, entries, sha, containerStr).value;
      var h := PrepareDocument(request, sha, containerStr).value;
      out.JObj? && "data" in out.fields && out.fields["data"].JArr?
      && forall i :: 0 <= i < |out.fields["data"].items| ==>
           var item := out.fields["data"].items[i];
           && item.JObj? && "key" in item.fields && "checksum" in item.fields
           && item.fields["key"].JStr? && h.docKey + "|" <= item.fields["key"].s
           && item.fields["checksum"] == JStr(Sha256Prefix16(sha, item.fields["key"].s))
  {
    OutputData(request, entries, sha, containerStr);
  }
}
