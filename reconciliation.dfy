/**
 * Phase 4: fill the reading level into the system prompt, and reconcile the
 * sentence generator's response with the request document phase 3 built.
 *
 * The generator's reply is modelled only by its record shape
 * `{subtitle, doc_checksum, data: [{checksum, sentence}]}`; the call itself is
 * not part of this model. The request document is a mutable object: its
 * entries receive `output` in place as they are matched, so an error part-way
 * leaves the entries before it already updated.
 */
module Reconciliation {
  import opened PyJson
  import opened Results
  import opened Text

  // ---------------------------------------------------------------------------
  // build_reading_level_str / flesh_out_system_prompt
  // ---------------------------------------------------------------------------

  datatype PromptError =
    | RequestNotObject               // `request_json.get` on a non-dict
    | UnboundLevel                   // falsy `reading_level`: `system` is read before it is assigned
    | ReadingLevelNotObject          // truthy non-dict `reading_level`: `.get` raises
    | MissingReadingLevel            // "Input JSON missing 'reading_level'."
    | UnsupportedSystem(system: Json)

  /** The reading level's `system` and `level`, when `reading_level` is a non-empty dict. */
  function ReadingLevelPart(request: Json, key: string): Json
    requires request.JObj?
  {
    var rl := Get(request.fields, "reading_level");
    if rl.JObj? then Get(rl.fields, key) else JNull
  }

  /** `build_reading_level_str`: the phrase the prompt uses for the reading level. */
  function ReadingLevelStr(request: Json, containerStr: Json -> string): (r: Result<string, PromptError>)
    ensures r.Ok? <==>
      && request.JObj? && Get(request.fields, "reading_level").JObj? && Truthy(Get(request.fields, "reading_level"))
      && Truthy(ReadingLevelPart(request, "system")) && Truthy(ReadingLevelPart(request, "level"))
      && (ReadingLevelPart(request, "system") == JStr("fp") || ReadingLevelPart(request, "system") == JStr("grade"))
    ensures request.JObj? && !Truthy(Get(request.fields, "reading_level")) ==> r == Err(UnboundLevel)
  {
    if !request.JObj? then Err(RequestNotObject)
    else
      var rl := Get(request.fields, "reading_level");
      if !Truthy(rl) then Err(UnboundLevel)
      else if !rl.JObj? then Err(ReadingLevelNotObject)
      else
        var system := Get(rl.fields, "system");
        var level := Get(rl.fields, "level");
        if !Truthy(system) || !Truthy(level) then Err(MissingReadingLevel)
        else if PyEq(system, JStr("fp")) then Ok("Fountas & Pinnell level " + PyStr(level, containerStr))
        else if PyEq(system, JStr("grade")) then
          if PyEq(level, JInt(1)) then Ok("1st-grade reading level")
          else if PyEq(level, JInt(2)) then Ok("2nd-grade reading level")
          else Ok(PyStr(level, containerStr) + "th-grade reading level")
        else Err(UnsupportedSystem(system))
  }

  /** A request whose reading level is `{"system": system, "level": level}`. */
  function LevelRequest(system: Json, level: Json): Json {
    JObj(map["reading_level" := JObj(map["system" := system, "level" := level])])
  }

  /** Fountas & Pinnell levels are spelled out with the level as given. */
  lemma FountasPinnellPhrase(level: string, containerStr: Json -> string)
    requires |level| > 0
    ensures ReadingLevelStr(LevelRequest(JStr("fp"), JStr(level)), containerStr) == Ok("Fountas & Pinnell level " + level)
  {
  }

  /** Grades 1 and 2 (and `True`, which equals 1) get their proper ordinals. */
  lemma GradeOrdinals(containerStr: Json -> string)
    ensures ReadingLevelStr(LevelRequest(JStr("grade"), JInt(1)), containerStr) == Ok("1st-grade reading level")
    ensures ReadingLevelStr(LevelRequest(JStr("grade"), JInt(2)), containerStr) == Ok("2nd-grade reading level")
    ensures ReadingLevelStr(LevelRequest(JStr("grade"), JBool(true)), containerStr) == Ok("1st-grade reading level")
  {
  }

  /**
   * Every other grade gets "th" after its `str()`; so grade 3 reads
   * "3th-grade reading level", and the string "2" (which is not the integer 2)
   * reads "2th-grade reading level".
   */
  lemma GradeThSuffix(level: Json, containerStr: Json -> string)
    requires Truthy(level) && !PyEq(level, JInt(1)) && !PyEq(level, JInt(2))
    ensures ReadingLevelStr(LevelRequest(JStr("grade"), level), containerStr)
         == Ok(PyStr(level, containerStr) + "th-grade reading level")
  {
    var request := LevelRequest(JStr("grade"), level);
    assert Get(request.fields, "reading_level") == JObj(map["system" := JStr("grade"), "level" := level]);
    assert !PyEq(JStr("grade"), JStr("fp")) && PyEq(JStr("grade"), JStr("grade"));
  }

  lemma GradeThree(containerStr: Json -> string)
    ensures ReadingLevelStr(LevelRequest(JStr("grade"), JInt(3)), containerStr) == Ok("3" + "th-grade reading level")
  {
    GradeThSuffix(JInt(3), containerStr);
    assert PyStr(JInt(3), containerStr) == "3" by {
      assert NatToDecimal(3) == [DigitChar(3)];
    }
  }

  lemma GradeStringTwo(containerStr: Json -> string)
    ensures ReadingLevelStr(LevelRequest(JStr("grade"), JStr("2")), containerStr) == Ok("2" + "th-grade reading level")
  {
    GradeThSuffix(JStr("2"), containerStr);
  }

  /** Any other truthy system is rejected, naming the system. */
  lemma OtherSystemsUnsupported(system: Json, level: Json, containerStr: Json -> string)
    requires Truthy(system) && Truthy(level) && system != JStr("fp") && system != JStr("grade")
    ensures ReadingLevelStr(LevelRequest(system, level), containerStr) == Err(UnsupportedSystem(system))
  {
  }

  const ReadingLevelName := "reading_level"

  /** `flesh_out_system_prompt`: every `{reading_level}` in the prompt becomes the phrase. */
  function FleshOutSystemPrompt(rawPrompt: string, request: Json, containerStr: Json -> string): Result<string, PromptError> {
    match ReadingLevelStr(request, containerStr)
    case Err(e) => Err(e)
    case Ok(phrase) => Ok(Replace(rawPrompt, Placeholder(ReadingLevelName), phrase))
  }

  /** Brace-free text holds no placeholder. */
  lemma BraceFreeHasNoPlaceholder(s: string, k: string)
    requires BraceFree(s)
    ensures !Occurs(s, Placeholder(k))
  {
    forall p | 0 <= p ensures !OccursAt(s, Placeholder(k), p) {
      if p + |Placeholder(k)| <= |s| {
        assert s[p..p + |Placeholder(k)|][0] == s[p];
        assert s[p] in s;
      }
    }
  }

  /**
   * A prompt with one `{reading_level}` between brace-free text gets the phrase
   * in its place and nothing else changes; a prompt without the placeholder is
   * returned unchanged.
   */
  lemma FleshOutFillsPlaceholder(before: string, after: string, request: Json, containerStr: Json -> string)
    requires ReadingLevelStr(request, containerStr).Ok?
    requires BraceFree(before) && BraceFree(after)
    ensures FleshOutSystemPrompt(before + Placeholder(ReadingLevelName) + after, request, containerStr)
         == Ok(before + ReadingLevelStr(request, containerStr).value + after)
  {
    var k, phrase := ReadingLevelName, ReadingLevelStr(request, containerStr).value;
    PlaceholderFilled(before, after, k, phrase);
    BraceFreeHasNoPlaceholder(before, k);
    BraceFreeHasNoPlaceholder(after, k);
    ReplaceWithoutOccurrence(before, Placeholder(k), phrase);
    ReplaceWithoutOccurrence(after, Placeholder(k), phrase);
  }

  lemma FleshOutWithoutPlaceholder(rawPrompt: string, request: Json, containerStr: Json -> string)
    requires ReadingLevelStr(request, containerStr).Ok?
    requires !Occurs(rawPrompt, Placeholder(ReadingLevelName))
    ensures FleshOutSystemPrompt(rawPrompt, request, containerStr) == Ok(rawPrompt)
  {
    ReplaceWithoutOccurrence(rawPrompt, Placeholder(ReadingLevelName), ReadingLevelStr(request, containerStr).value);
  }

  // ---------------------------------------------------------------------------
  // The response and its index by checksum
  // ---------------------------------------------------------------------------

  datatype VocabSentence = VocabSentence(checksum: string, sentence: string)

  datatype Response = Response(subtitle: string, docChecksum: string, data: seq<VocabSentence>)

  function ResponseChecksums(data: seq<VocabSentence>): set<string> {
    set i | 0 <= i < |data| :: data[i].checksum
  }

  lemma ResponseChecksumsSnoc(data: seq<VocabSentence>)
    requires |data| > 0
    ensures ResponseChecksums(data) == ResponseChecksums(data[..|data| - 1]) + {data[|data| - 1].checksum}
  {
    var init := data[..|data| - 1];
    forall c | c in ResponseChecksums(data) ensures c in ResponseChecksums(init) + {data[|data| - 1].checksum} {
      var i :| 0 <= i < |data| && data[i].checksum == c;
      if i < |init| {
        assert init[i] == data[i];
      }
    }
    forall c | c in ResponseChecksums(init) ensures c in ResponseChecksums(data) {
      var i :| 0 <= i < |init| && init[i].checksum == c;
      assert data[i] == init[i];
    }
  }

  predicate DistinctChecksums(data: seq<VocabSentence>) {
    forall i, j :: 0 <= i < j < |data| ==> data[i].checksum != data[j].checksum
  }

  /** The checksum of the first item whose checksum an earlier item already has. */
  function FirstRepeat(data: seq<VocabSentence>): Option<string> {
    if data == [] then None
    else
      var init := data[..|data| - 1];
      match FirstRepeat(init)
      case Some(c) => Some(c)
      case None =>
        if data[|data| - 1].checksum in ResponseChecksums(init) then Some(data[|data| - 1].checksum) else None
  }

  /**
   * No repeat is found exactly when the checksums are distinct; a repeat found
   * is a checksum two items share, and all items before the second are distinct.
   */
  lemma {:induction false} FirstRepeatFindsDuplicates(data: seq<VocabSentence>)
    ensures FirstRepeat(data).None? <==> DistinctChecksums(data)
    ensures FirstRepeat(data).Some? ==>
      exists i, j :: 0 <= i < j < |data| && data[i].checksum == FirstRepeat(data).value == data[j].checksum
                     && DistinctChecksums(data[..j])
  {
    if data != [] {
      var init, last := data[..|data| - 1], data[|data| - 1];
      FirstRepeatFindsDuplicates(init);
      match FirstRepeat(init)
      case Some(c) =>
        var i, j :| 0 <= i < j < |init| && init[i].checksum == c == init[j].checksum && DistinctChecksums(init[..j]);
        assert data[i] == init[i] && data[j] == init[j] && data[..j] == init[..j];
      case None =>
        if last.checksum in ResponseChecksums(init) {
          var i :| 0 <= i < |init| && init[i].checksum == last.checksum;
          assert data[i] == init[i] && data[..|data| - 1] == init;
        } else {
          forall i, j | 0 <= i < j < |data| ensures data[i].checksum != data[j].checksum {
            assert data[i] == init[i];
            if j < |init| {
              assert data[j] == init[j];
            }
          }
        }
    }
  }

  /** Once a prefix has a repeat, the whole sequence reports that same repeat. */
  lemma {:induction false} FirstRepeatPrefix(data: seq<VocabSentence>, k: nat)
    requires k <= |data|
    requires FirstRepeat(data[..k]).Some?
    ensures FirstRepeat(data) == FirstRepeat(data[..k])
    decreases |data| - k
  {
    if k < |data| {
      assert data[..k + 1][..k] == data[..k];
      FirstRepeatPrefix(data, k + 1);
    } else {
      assert data[..k] == data;
    }
  }

  /** `response_by_checksum`: each checksum mapped to its item's sentence. */
  function ByChecksum(data: seq<VocabSentence>): (r: map<string, string>)
    ensures r.Keys == ResponseChecksums(data)
  {
    if data == [] then map[]
    else
      var last := data[|data| - 1];
      ResponseChecksumsSnoc(data);
      ByChecksum(data[..|data| - 1])[last.checksum := last.sentence]
  }

  /** With distinct checksums, every item's checksum maps to that item's own sentence. */
  lemma {:induction false} ByChecksumFindsItem(data: seq<VocabSentence>, i: nat)
    requires DistinctChecksums(data) && i < |data|
    ensures ByChecksum(data)[data[i].checksum] == data[i].sentence
  {
    var init := data[..|data| - 1];
    if i < |init| {
      assert DistinctChecksums(init) by {
        forall a, b | 0 <= a < b < |init| ensures init[a].checksum != init[b].checksum {
          assert init[a] == data[a] && init[b] == data[b];
        }
      }
      assert init[i] == data[i];
      ByChecksumFindsItem(init, i);
    }
  }

  // ---------------------------------------------------------------------------
  // The entry loop
  // ---------------------------------------------------------------------------

  datatype ReconcileError =
    | MissingDocChecksum                                    // request `doc_checksum` absent or falsy
    | DocChecksumMismatch(input: Json, response: string)
    | DuplicateChecksum(checksum: string)                   // two response items share a checksum
    | MalformedData                                         // truthy `data` that is not a list
    | MalformedEntry                                        // an input entry that is not a dict
    | MissingEntryChecksum                                  // "Input entry missing 'checksum'."
    | UnhashableChecksum                                    // a list or dict checksum used as a key
    | MissingChecksums(checksums: seq<string>)              // sorted unmatched input checksums
    | MissingChecksumNotString                              // `sorted`/`join` of the missing list raises
    | UnexpectedChecksums(checksums: seq<string>)           // sorted response checksums with no input entry

  /** An input checksum the response has a sentence for. */
  predicate IsMatched(checksum: Json, index: map<string, string>) {
    checksum.JStr? && checksum.s in index
  }

  /** The entry with `output = {"sentence": sentence}` set. */
  function WithOutput(entry: Json, sentence: string): Json
    requires entry.JObj?
  {
    JObj(entry.fields["output" := JObj(map["sentence" := JStr(sentence)])])
  }

  datatype EntryOutcome = Matched(updated: Json) | Unmatched(checksum: Json)

  /** One turn of the entry loop. */
  function EntryStep(entry: Json, index: map<string, string>): Result<EntryOutcome, ReconcileError> {
    if !entry.JObj? then Err(MalformedEntry)
    else
      var checksum := Get(entry.fields, "checksum");
      if !Truthy(checksum) then Err(MissingEntryChecksum)
      else if !Hashable(checksum) then Err(UnhashableChecksum)
      else if IsMatched(checksum, index) then Ok(Matched(WithOutput(entry, index[checksum.s])))
      else Ok(Unmatched(checksum))
  }

  /** The entry as the loop leaves it. */
  function Applied(entry: Json, index: map<string, string>): Json {
    match EntryStep(entry, index)
    case Ok(Matched(updated)) => updated
    case _ => entry
  }

  /**
   * A processed entry is unchanged except for `output`, which it gains
   * exactly when its checksum is matched, holding the matched sentence.
   */
  lemma AppliedChangesOnlyOutput(entry: Json, index: map<string, string>)
    requires EntryStep(entry, index).Ok?
    ensures entry.JObj? && Applied(entry, index).JObj?
    ensures var checksum := Get(entry.fields, "checksum");
      var out := Applied(entry, index).fields;
      && Truthy(checksum) && Hashable(checksum)
      && (forall f :: f != "output" ==> (f in out <==> f in entry.fields))
      && (forall f :: f in entry.fields && f != "output" ==> out[f] == entry.fields[f])
      && (IsMatched(checksum, index) ==> "output" in out && out["output"] == JObj(map["sentence" := JStr(index[checksum.s])]))
      && (!IsMatched(checksum, index) ==> out == entry.fields)
  {
  }

  datatype Progress = Progress(entries: seq<Json>, missing: seq<Json>, error: Option<ReconcileError>)

  /** The loop state after one more entry. */
  function Extend(p: Progress, entry: Json, index: map<string, string>): Progress {
    if p.error.Some? then Progress(p.entries + [entry], p.missing, p.error)
    else match EntryStep(entry, index)
      case Err(e) => Progress(p.entries + [entry], p.missing, Some(e))
      case Ok(Matched(updated)) => Progress(p.entries + [updated], p.missing, None)
      case Ok(Unmatched(checksum)) => Progress(p.entries + [entry], p.missing + [checksum], None)
  }

  /**
   * The entry loop over a prefix: the entries as it leaves them, the unmatched
   * checksums in order, and the error that stopped it, if any.
   */
  function ProcessEntries(entries: seq<Json>, index: map<string, string>): (p: Progress)
    ensures |p.entries| == |entries|
  {
    if entries == [] then Progress([], [], None)
    else Extend(ProcessEntries(entries[..|entries| - 1], index), entries[|entries| - 1], index)
  }

  /** Without an error, every entry was processed: matched ones carry `output`, others are unchanged. */
  lemma {:induction false} ProcessEntriesSucceeds(entries: seq<Json>, index: map<string, string>)
    ensures ProcessEntries(entries, index).error.None? <==> forall i :: 0 <= i < |entries| ==> EntryStep(entries[i], index).Ok?
    ensures ProcessEntries(entries, index).error.None? ==>
      forall i :: 0 <= i < |entries| ==> ProcessEntries(entries, index).entries[i] == Applied(entries[i], index)
  {
    if entries != [] {
      var init := entries[..|entries| - 1];
      ProcessEntriesSucceeds(init, index);
      assert forall i :: 0 <= i < |init| ==> init[i] == entries[i];
    }
  }

  /**
   * The loop stopped at entry `k`: that entry raised the error, the entries
   * before it were processed (and keep any `output` they received), the rest
   * are untouched.
   */
  predicate StopsAt(entries: seq<Json>, index: map<string, string>, p: Progress, k: nat) {
    && k < |entries| && |p.entries| == |entries| && p.error.Some?
    && EntryStep(entries[k], index) == Err(p.error.value)
    && (forall i :: 0 <= i < k ==> EntryStep(entries[i], index).Ok? && p.entries[i] == Applied(entries[i], index))
    && (forall i :: k <= i < |entries| ==> p.entries[i] == entries[i])
  }

  /** An error stops the loop at the first bad entry. */
  lemma {:induction false} ProcessEntriesStops(entries: seq<Json>, index: map<string, string>)
    requires ProcessEntries(entries, index).error.Some?
    ensures exists k :: StopsAt(entries, index, ProcessEntries(entries, index), k)
  {
    var init := entries[..|entries| - 1];
    if ProcessEntries(init, index).error.Some? {
      ProcessEntriesStops(init, index);
      var k :| StopsAt(init, index, ProcessEntries(init, index), k);
      StopsAtCarries(entries, index, k);
    } else {
      ProcessEntriesSucceeds(init, index);
      StopsAtLast(entries, index);
    }
  }

  /** Entries after the one that stopped the loop are passed through untouched. */
  lemma StopsAtCarries(entries: seq<Json>, index: map<string, string>, k: nat)
    requires entries != [] && StopsAt(entries[..|entries| - 1], index, ProcessEntries(entries[..|entries| - 1], index), k)
    ensures StopsAt(entries, index, ProcessEntries(entries, index), k)
  {
    var n := |entries| - 1;
    var q := ProcessEntries(entries[..n], index);
    assert ProcessEntries(entries, index) == Progress(q.entries + [entries[n]], q.missing, q.error);
    StopsAtAppend(entries[..n], index, q, k, entries[n]);
    assert entries[..n] + [entries[n]] == entries;
  }

  /** Appending an entry after the loop has stopped keeps the stop where it was. */
  lemma StopsAtAppend(init: seq<Json>, index: map<string, string>, q: Progress, k: nat, x: Json)
    requires StopsAt(init, index, q, k)
    ensures StopsAt(init + [x], index, Progress(q.entries + [x], q.missing, q.error), k)
  {
    var entries, p := init + [x], q.entries + [x];
    forall i | 0 <= i < k ensures EntryStep(entries[i], index).Ok? && p[i] == Applied(entries[i], index) {
      assert entries[i] == init[i] && p[i] == q.entries[i];
    }
    forall i | k <= i < |entries| ensures p[i] == entries[i] {
      if i < |init| {
        assert entries[i] == init[i] && p[i] == q.entries[i];
      }
    }
    assert entries[k] == init[k];
  }

  /** The first error raised by the last entry stops the loop there. */
  lemma StopsAtLast(entries: seq<Json>, index: map<string, string>)
    requires entries != [] && ProcessEntries(entries, index).error.Some?
    requires forall i :: 0 <= i < |entries| - 1 ==> ProcessEntries(entries[..|entries| - 1], index).entries[i] == Applied(entries[i], index)
    requires forall i :: 0 <= i < |entries| - 1 ==> EntryStep(entries[i], index).Ok?
    ensures StopsAt(entries, index, ProcessEntries(entries, index), |entries| - 1)
  {
    var n := |entries| - 1;
    var p, q := ProcessEntries(entries, index), ProcessEntries(entries[..n], index);
    assert p.entries == q.entries + [entries[n]];
    forall i | 0 <= i < n ensures p.entries[i] == Applied(entries[i], index) {
      assert p.entries[i] == q.entries[i];
    }
  }

  /** The checksums of the dict entries the index does not match, one per entry, in entry order. */
  function UnmatchedChecksums(entries: seq<Json>, index: map<string, string>): seq<Json> {
    if entries == [] then []
    else
      var last := entries[|entries| - 1];
      UnmatchedChecksums(entries[..|entries| - 1], index)
      + (if last.JObj? && !IsMatched(Get(last.fields, "checksum"), index) then [Get(last.fields, "checksum")] else [])
  }

  /** A checksum is listed exactly when some dict entry has it and the index does not match it. */
  lemma {:induction false} UnmatchedChecksumsMembers(entries: seq<Json>, index: map<string, string>)
    ensures forall c :: c in UnmatchedChecksums(entries, index) <==>
      exists i :: 0 <= i < |entries| && entries[i].JObj? && Get(entries[i].fields, "checksum") == c && !IsMatched(c, index)
  {
    if entries != [] {
      var init := entries[..|entries| - 1];
      assert forall i :: 0 <= i < |init| ==> init[i] == entries[i];
      UnmatchedChecksumsMembers(init, index);
    }
  }

  /** Without an error, the missing list is the unmatched input checksums, one per unmatched entry, in entry order. */
  lemma {:induction false} ProcessEntriesMissing(entries: seq<Json>, index: map<string, string>)
    requires ProcessEntries(entries, index).error.None?
    ensures ProcessEntries(entries, index).missing == UnmatchedChecksums(entries, index)
  {
    if entries != [] {
      ProcessEntriesMissing(entries[..|entries| - 1], index);
    }
  }

  lemma ProcessEntriesSnoc(entries: seq<Json>, i: nat, index: map<string, string>)
    requires i < |entries|
    ensures ProcessEntries(entries[..i + 1], index) == Extend(ProcessEntries(entries[..i], index), entries[i], index)
  {
    assert entries[..i + 1][..i] == entries[..i];
  }

  /** Setting position `i` of a list whose tail from `i` is still the original. */
  lemma UpdateStep(updated: seq<Json>, entries: seq<Json>, i: nat, x: Json)
    requires |updated| == |entries| && i < |entries| && updated[i..] == entries[i..]
    ensures updated[i := x][..i + 1] == updated[..i] + [x]
    ensures updated[i := x][i + 1..] == entries[i + 1..]
    ensures updated[i := entries[i]] == updated == updated[..i] + [entries[i]] + entries[i + 1..]
  {
    assert updated[i] == updated[i..][0] == entries[i];
    assert updated[i + 1..] == updated[i..][1..];
  }

  /** Once a prefix stops with an error, the whole loop stops there with the rest untouched. */
  lemma {:induction false} ProcessEntriesPrefixErr(entries: seq<Json>, k: nat, index: map<string, string>)
    requires k <= |entries|
    requires ProcessEntries(entries[..k], index).error.Some?
    ensures var q := ProcessEntries(entries[..k], index);
      ProcessEntries(entries, index) == Progress(q.entries + entries[k..], q.missing, q.error)
    decreases |entries| - k
  {
    if k < |entries| {
      assert entries[..k + 1][..k] == entries[..k];
      ProcessEntriesPrefixErr(entries, k + 1, index);
      assert entries[k..] == [entries[k]] + entries[k + 1..];
    } else {
      assert entries[..k] == entries;
    }
  }

  // ---------------------------------------------------------------------------
  // append_response_json as a function of the request's fields
  // ---------------------------------------------------------------------------

  /** `request_json.get("data") or []` once truthy non-lists are rejected. */
  function InputEntries(data: Json): seq<Json> {
    if data.JArr? then data.items else []
  }

  /** The request's fields with its `data` list replaced (when it is a list). */
  function WithData(fields: map<string, Json>, data: Json, entries: seq<Json>): map<string, Json> {
    if data.JArr? then fields["data" := JArr(entries)] else fields
  }

  /** The string checksums of the input entries (no other value can equal a response checksum). */
  function InputChecksums(entries: seq<Json>): set<string> {
    set i | 0 <= i < |entries| && entries[i].JObj? && Get(entries[i].fields, "checksum").JStr?
      :: Get(entries[i].fields, "checksum").s
  }

  /** The response checksums no input entry has, in response order. */
  function Extra(data: seq<VocabSentence>, inputs: set<string>): (r: seq<string>)
    ensures forall c :: c in r <==> c in ResponseChecksums(data) && c !in inputs
  {
    if data == [] then []
    else
      var last := data[|data| - 1];
      ResponseChecksumsSnoc(data);
      Extra(data[..|data| - 1], inputs) + (if last.checksum in inputs then [] else [last.checksum])
  }

  predicate AllStrings(xs: seq<Json>) {
    forall i :: 0 <= i < |xs| ==> xs[i].JStr?
  }

  function Strs(xs: seq<Json>): (r: seq<string>)
    requires AllStrings(xs)
    ensures |r| == |xs| && forall i :: 0 <= i < |xs| ==> xs[i] == JStr(r[i])
  {
    seq(|xs|, i requires 0 <= i < |xs| => xs[i].s)
  }

  /** The request's fields after `append_response_json`, and the error it raised, if any. */
  datatype Outcome = Outcome(fields: map<string, Json>, error: Option<ReconcileError>)

  function SubtitleOutput(response: Response): Json {
    JObj(map["subtitle" := JStr(response.subtitle)])
  }

  /** `append_response_json`, with its checks in the order the code makes them. */
  function Reconcile(fields: map<string, Json>, response: Response): Outcome {
    var docChecksum := Get(fields, "doc_checksum");
    if !Truthy(docChecksum) then Outcome(fields, Some(MissingDocChecksum))
    else if !PyEq(JStr(response.docChecksum), docChecksum) then
      Outcome(fields, Some(DocChecksumMismatch(docChecksum, response.docChecksum)))
    else if FirstRepeat(response.data).Some? then Outcome(fields, Some(DuplicateChecksum(FirstRepeat(response.data).value)))
    else
      var data := Get(fields, "data");
      if Truthy(data) && !data.JArr? then Outcome(fields, Some(MalformedData))
      else Finish(fields, data, response, ProcessEntries(InputEntries(data), ByChecksum(response.data)))
  }

  /** What follows the entry loop: the missing check, the extra check, then `output.subtitle`. */
  function Finish(fields: map<string, Json>, data: Json, response: Response, p: Progress): Outcome {
    var updated := WithData(fields, data, p.entries);
    if p.error.Some? then Outcome(updated, p.error)
    else if |p.missing| > 0 then
      if AllStrings(p.missing) then Outcome(updated, Some(MissingChecksums(SortStrings(Strs(p.missing)))))
      else Outcome(updated, Some(MissingChecksumNotString))
    else
      var extra := Extra(response.data, InputChecksums(InputEntries(data)));
      if |extra| > 0 then Outcome(updated, Some(UnexpectedChecksums(SortStrings(extra))))
      else Outcome(updated["output" := SubtitleOutput(response)], None)
  }

  // ---------------------------------------------------------------------------
  // Properties of the reconciliation
  // ---------------------------------------------------------------------------

  lemma PyEqStr(x: string, v: Json)
    ensures PyEq(JStr(x), v) <==> v == JStr(x)
  {
  }

  /** The response's `doc_checksum` must equal the request's, which must be present and non-empty. */
  lemma DocChecksumChecked(fields: map<string, Json>, response: Response)
    ensures var doc := Get(fields, "doc_checksum");
      !Truthy(doc) ==> Reconcile(fields, response) == Outcome(fields, Some(MissingDocChecksum))
    ensures var doc := Get(fields, "doc_checksum");
      Truthy(doc) && doc != JStr(response.docChecksum) ==>
        Reconcile(fields, response) == Outcome(fields, Some(DocChecksumMismatch(doc, response.docChecksum)))
  {
    PyEqStr(response.docChecksum, Get(fields, "doc_checksum"));
  }

  /** The request's document checksum matches the response's. */
  predicate DocMatches(fields: map<string, Json>, response: Response) {
    |response.docChecksum| > 0 && Get(fields, "doc_checksum") == JStr(response.docChecksum)
  }

  /** Two response items with one checksum are rejected before any entry is touched. */
  lemma DuplicatesRejectedFirst(fields: map<string, Json>, response: Response)
    requires DocMatches(fields, response) && !DistinctChecksums(response.data)
    ensures Reconcile(fields, response).fields == fields
    ensures Reconcile(fields, response).error.Some? && Reconcile(fields, response).error.value.DuplicateChecksum?
    ensures exists i, j ::
      && 0 <= i < j < |response.data|
      && response.data[i].checksum == Reconcile(fields, response).error.value.checksum == response.data[j].checksum
  {
    PyEqStr(response.docChecksum, Get(fields, "doc_checksum"));
    FirstRepeatFindsDuplicates(response.data);
  }

  /** The checks before the entry loop pass, and `data` is a list or falsy. */
  predicate ReachesEntries(fields: map<string, Json>, response: Response) {
    DocMatches(fields, response) && DistinctChecksums(response.data)
    && !(Truthy(Get(fields, "data")) && !Get(fields, "data").JArr?)
  }

  /** An error before the entry loop leaves the request as it was. */
  lemma EarlyErrorsChangeNothing(fields: map<string, Json>, response: Response)
    requires !ReachesEntries(fields, response)
    ensures Reconcile(fields, response).fields == fields
    ensures var e := Reconcile(fields, response).error;
      e.Some? && (e.value.MissingDocChecksum? || e.value.DocChecksumMismatch? || e.value.DuplicateChecksum? || e.value.MalformedData?)
  {
    PyEqStr(response.docChecksum, Get(fields, "doc_checksum"));
    FirstRepeatFindsDuplicates(response.data);
  }

  /** Once the loop is reached, what happens is the loop and what follows it. */
  lemma ReachesFinish(fields: map<string, Json>, response: Response)
    requires ReachesEntries(fields, response)
    ensures var data := Get(fields, "data");
      Reconcile(fields, response) == Finish(fields, data, response, ProcessEntries(InputEntries(data), ByChecksum(response.data)))
  {
    PyEqStr(response.docChecksum, Get(fields, "doc_checksum"));
    FirstRepeatFindsDuplicates(response.data);
  }

  /**
   * A bad input entry stops the loop there: the entries before it have
   * already received their `output`, the ones after it are untouched.
   */
  lemma EntryErrorKeepsEarlierOutputs(fields: map<string, Json>, response: Response)
    requires ReachesEntries(fields, response)
    requires ProcessEntries(InputEntries(Get(fields, "data")), ByChecksum(response.data)).error.Some?
    ensures var entries := InputEntries(Get(fields, "data"));
      var index := ByChecksum(response.data);
      var out := Reconcile(fields, response);
      && Get(fields, "data").JArr? && "data" in out.fields && out.fields["data"].JArr?
      && |out.fields["data"].items| == |entries|
      && out.error.Some?
      && exists k ::
         && 0 <= k < |entries| && EntryStep(entries[k], index) == Err(out.error.value)
         && (forall i :: 0 <= i < k ==> out.fields["data"].items[i] == Applied(entries[i], index))
         && (forall i :: k <= i < |entries| ==> out.fields["data"].items[i] == entries[i])
  {
    var data := Get(fields, "data");
    var entries := InputEntries(data);
    var index := ByChecksum(response.data);
    ReachesFinish(fields, response);
    ProcessEntriesStops(entries, index);
  }

  /** Every input entry is a dict with a truthy, hashable checksum. */
  predicate EntriesWellFormed(entries: seq<Json>) {
    forall i :: 0 <= i < |entries| ==>
      entries[i].JObj? && Truthy(Get(entries[i].fields, "checksum")) && Hashable(Get(entries[i].fields, "checksum"))
  }

  lemma EntryStepOk(entries: seq<Json>, index: map<string, string>)
    ensures (forall i :: 0 <= i < |entries| ==> EntryStep(entries[i], index).Ok?) <==> EntriesWellFormed(entries)
  {
  }

  /** The entries as the loop leaves them when it meets no error. */
  function AllApplied(entries: seq<Json>, index: map<string, string>): seq<Json> {
    seq(|entries|, i requires 0 <= i < |entries| => Applied(entries[i], index))
  }

  /** The loop runs to the end exactly when the entries are well formed, and then applies every entry. */
  lemma LoopCompletes(entries: seq<Json>, index: map<string, string>)
    ensures ProcessEntries(entries, index).error.None? <==> EntriesWellFormed(entries)
    ensures EntriesWellFormed(entries) ==> ProcessEntries(entries, index).entries == AllApplied(entries, index)
  {
    ProcessEntriesSucceeds(entries, index);
    EntryStepOk(entries, index);
  }

  /** The error `Finish` reports is one raised after a complete loop. */
  predicate AfterLoopError(e: ReconcileError) {
    e.MissingChecksums? || e.MissingChecksumNotString? || e.UnexpectedChecksums?
  }

  /** The loop itself raises only errors about single entries. */
  lemma LoopErrorsAreAboutEntries(entries: seq<Json>, index: map<string, string>)
    ensures ProcessEntries(entries, index).error.Some? ==> !AfterLoopError(ProcessEntries(entries, index).error.value)
  {
    if ProcessEntries(entries, index).error.Some? {
      ProcessEntriesStops(entries, index);
    }
  }

  /** Errors raised after the loop come with every entry already processed. */
  lemma AfterLoopErrorsReached(fields: map<string, Json>, response: Response)
    requires var e := Reconcile(fields, response).error; e.None? || AfterLoopError(e.value)
    ensures ReachesEntries(fields, response)
    ensures var data := Get(fields, "data");
      var entries := InputEntries(data);
      var index := ByChecksum(response.data);
      && EntriesWellFormed(entries)
      && ProcessEntries(entries, index).error.None?
      && Reconcile(fields, response) == Finish(fields, data, response, ProcessEntries(entries, index))
  {
    if !ReachesEntries(fields, response) {
      EarlyErrorsChangeNothing(fields, response);
    } else {
      ReachesFinish(fields, response);
      LoopCompletes(InputEntries(Get(fields, "data")), ByChecksum(response.data));
      LoopErrorsAreAboutEntries(InputEntries(Get(fields, "data")), ByChecksum(response.data));
    }
  }

  /** The reported list is the sorted form of a list exactly when they hold the same strings and it is sorted. */
  lemma SortedSameMembers(xs: seq<string>)
    ensures Sorted(SortStrings(xs))
    ensures forall c :: c in SortStrings(xs) <==> c in xs
  {
    forall c ensures c in SortStrings(xs) <==> c in xs {
      assert c in SortStrings(xs) <==> c in multiset(SortStrings(xs));
      assert c in xs <==> c in multiset(xs);
    }
  }

  lemma StrsMembers(xs: seq<Json>)
    requires AllStrings(xs)
    ensures forall c :: c in Strs(xs) <==> JStr(c) in xs
  {
    var strs := Strs(xs);
    forall c ensures c in strs <==> JStr(c) in xs {
      if c in strs {
        var i :| 0 <= i < |strs| && strs[i] == c;
        assert xs[i] == JStr(c);
      }
      if JStr(c) in xs {
        var i :| 0 <= i < |xs| && xs[i] == JStr(c);
        assert strs[i] == c;
      }
    }
  }

  /**
   * Unmatched input checksums are all reported together, sorted, after the
   * matched entries have received their sentences.
   */
  lemma MissingReportedSorted(fields: map<string, Json>, response: Response, reported: seq<string>)
    requires Reconcile(fields, response).error == Some(MissingChecksums(reported))
    ensures ReachesEntries(fields, response)
    ensures Sorted(reported)
    ensures var entries := InputEntries(Get(fields, "data"));
      && EntriesWellFormed(entries)
      && Reconcile(fields, response).fields == WithData(fields, Get(fields, "data"), AllApplied(entries, ByChecksum(response.data)))
      && (forall c :: c in reported <==>
           exists i :: 0 <= i < |entries| && Get(entries[i].fields, "checksum") == JStr(c)
                       && c !in ResponseChecksums(response.data))
      && var unmatched := UnmatchedChecksums(entries, ByChecksum(response.data));
         AllStrings(unmatched) && multiset(reported) == multiset(Strs(unmatched))
  {
    AfterLoopErrorsReached(fields, response);
    var entries := InputEntries(Get(fields, "data"));
    var index := ByChecksum(response.data);
    var p := ProcessEntries(entries, index);
    assert AllStrings(p.missing) && reported == SortStrings(Strs(p.missing));
    LoopCompletes(entries, index);
    ProcessEntriesMissing(entries, index);
    ReportedAreUnmatched(entries, response.data, p.missing);
  }

  /** The sorted missing list holds exactly the input checksums the response lacks. */
  lemma ReportedAreUnmatched(entries: seq<Json>, data: seq<VocabSentence>, missing: seq<Json>)
    requires EntriesWellFormed(entries) && missing == UnmatchedChecksums(entries, ByChecksum(data)) && AllStrings(missing)
    ensures forall c :: c in SortStrings(Strs(missing)) <==>
      exists i :: 0 <= i < |entries| && Get(entries[i].fields, "checksum") == JStr(c) && c !in ResponseChecksums(data)
  {
    UnmatchedChecksumsMembers(entries, ByChecksum(data));
    SortedSameMembers(Strs(missing));
    StrsMembers(missing);
  }

  /** No string occurs twice. */
  predicate NoDuplicates(s: seq<string>) {
    forall i, j :: 0 <= i < j < |s| ==> s[i] != s[j]
  }

  lemma {:induction false} NoDuplicatesMultiset(s: seq<string>)
    ensures NoDuplicates(s) <==> forall x :: multiset(s)[x] <= 1
  {
    if s != [] {
      var init, last := s[..|s| - 1], s[|s| - 1];
      assert s == init + [last];
      NoDuplicatesMultiset(init);
      if NoDuplicates(s) {
        assert NoDuplicates(init) by {
          forall i, j | 0 <= i < j < |init| ensures init[i] != init[j] {
            assert init[i] == s[i] && init[j] == s[j];
          }
        }
        assert last !in init by {
          forall i | 0 <= i < |init| ensures init[i] != last {
            assert init[i] == s[i];
          }
        }
      } else {
        var i, j :| 0 <= i < j < |s| && s[i] == s[j];
        if j < |init| {
          assert init[i] == s[i] && init[j] == s[j];
          assert !NoDuplicates(init);
          var x :| multiset(init)[x] > 1;
          assert multiset(s)[x] >= multiset(init)[x];
        } else {
          assert init[i] == last;
          assert multiset(s)[last] == multiset(init)[last] + 1;
        }
      }
    }
  }

  /** Sorting a list without duplicates keeps it without duplicates. */
  lemma SortKeepsNoDuplicates(s: seq<string>)
    requires NoDuplicates(s)
    ensures NoDuplicates(SortStrings(s))
  {
    NoDuplicatesMultiset(s);
    NoDuplicatesMultiset(SortStrings(s));
  }

  lemma {:induction false} ExtraNoDuplicates(data: seq<VocabSentence>, inputs: set<string>)
    requires DistinctChecksums(data)
    ensures NoDuplicates(Extra(data, inputs))
  {
    if data != [] {
      var init, last := data[..|data| - 1], data[|data| - 1];
      assert DistinctChecksums(init) by {
        forall a, b | 0 <= a < b < |init| ensures init[a].checksum != init[b].checksum {
          assert init[a] == data[a] && init[b] == data[b];
        }
      }
      ExtraNoDuplicates(init, inputs);
      assert last.checksum !in ResponseChecksums(init) by {
        forall i | 0 <= i < |init| ensures init[i].checksum != last.checksum {
          assert init[i] == data[i];
        }
      }
      var e := Extra(init, inputs);
      assert last.checksum !in e;
      var r := Extra(data, inputs);
      assert r == e + (if last.checksum in inputs then [] else [last.checksum]);
      forall i, j | 0 <= i < j < |r| ensures r[i] != r[j] {
        if j < |e| {
          assert r[i] == e[i] && r[j] == e[j];
        } else {
          assert r[i] == e[i] && e[i] in e;
        }
      }
    }
  }

  /** With no error from the loop, nothing is missing exactly when every input checksum is a response checksum. */
  lemma NothingMissing(entries: seq<Json>, response: Response)
    requires EntriesWellFormed(entries)
    ensures var p := ProcessEntries(entries, ByChecksum(response.data));
      |p.missing| == 0 <==>
        (forall i :: 0 <= i < |entries| ==> Get(entries[i].fields, "checksum").JStr?)
        && InputChecksums(entries) <= ResponseChecksums(response.data)
  {
    var index := ByChecksum(response.data);
    var p := ProcessEntries(entries, index);
    LoopCompletes(entries, index);
    ProcessEntriesMissing(entries, index);
    UnmatchedChecksumsMembers(entries, index);
    if |p.missing| > 0 {
      assert p.missing[0] in p.missing;
    }
    if exists i :: 0 <= i < |entries| && !IsMatched(Get(entries[i].fields, "checksum"), index) {
      var i :| 0 <= i < |entries| && !IsMatched(Get(entries[i].fields, "checksum"), index);
      assert Get(entries[i].fields, "checksum") in p.missing;
    }
  }

  /** Nothing is extra exactly when every response checksum is an input checksum. */
  lemma NothingExtra(data: seq<VocabSentence>, inputs: set<string>)
    ensures |Extra(data, inputs)| == 0 <==> ResponseChecksums(data) <= inputs
  {
    if |Extra(data, inputs)| > 0 {
      assert Extra(data, inputs)[0] in Extra(data, inputs);
    }
  }

  /**
   * With every input checksum answered, response checksums that match no
   * input entry are reported together, sorted and without repeats.
   */
  lemma ExtraReportedSorted(fields: map<string, Json>, response: Response, reported: seq<string>)
    requires Reconcile(fields, response).error == Some(UnexpectedChecksums(reported))
    ensures ReachesEntries(fields, response)
    ensures Sorted(reported) && NoDuplicates(reported)
    ensures var entries := InputEntries(Get(fields, "data"));
      && EntriesWellFormed(entries)
      && (forall i :: 0 <= i < |entries| ==> Get(entries[i].fields, "checksum").JStr?)
      && InputChecksums(entries) <= ResponseChecksums(response.data)
      && forall c :: c in reported <==> c in ResponseChecksums(response.data) && c !in InputChecksums(entries)
  {
    AfterLoopErrorsReached(fields, response);
    var entries := InputEntries(Get(fields, "data"));
    var extra := Extra(response.data, InputChecksums(entries));
    NothingMissing(entries, response);
    ExtraNoDuplicates(response.data, InputChecksums(entries));
    SortKeepsNoDuplicates(extra);
    SortedSameMembers(extra);
  }

  /**
   * The reconciliation succeeds exactly when the document checksums match,
   * the response checksums are distinct, `data` is a list (or falsy) of
   * well-formed entries with string checksums, and the input and response
   * checksums are the same set.
   */
  lemma SucceedsExactly(fields: map<string, Json>, response: Response)
    ensures Reconcile(fields, response).error.None? <==>
      && ReachesEntries(fields, response)
      && var entries := InputEntries(Get(fields, "data"));
         && EntriesWellFormed(entries)
         && (forall i :: 0 <= i < |entries| ==> Get(entries[i].fields, "checksum").JStr?)
         && InputChecksums(entries) == ResponseChecksums(response.data)
  {
    if !ReachesEntries(fields, response) {
      EarlyErrorsChangeNothing(fields, response);
    } else {
      ReachesFinish(fields, response);
      var entries := InputEntries(Get(fields, "data"));
      LoopCompletes(entries, ByChecksum(response.data));
      if EntriesWellFormed(entries) {
        NothingMissing(entries, response);
        NothingExtra(response.data, InputChecksums(entries));
      }
    }
  }

  /** On success, each entry's checksum is some response item's, and the entry holds that item's sentence. */
  lemma AppliedOnSuccess(entries: seq<Json>, response: Response, i: nat)
    requires DistinctChecksums(response.data) && EntriesWellFormed(entries) && i < |entries|
    requires Get(entries[i].fields, "checksum").JStr?
    requires InputChecksums(entries) <= ResponseChecksums(response.data)
    ensures exists j ::
      && 0 <= j < |response.data|
      && Get(entries[i].fields, "checksum") == JStr(response.data[j].checksum)
      && Applied(entries[i], ByChecksum(response.data)) == WithOutput(entries[i], response.data[j].sentence)
  {
    var c := Get(entries[i].fields, "checksum");
    assert c.s in InputChecksums(entries);
    var j :| 0 <= j < |response.data| && response.data[j].checksum == c.s;
    ByChecksumFindsItem(response.data, j);
  }

  /**
   * On success every entry carries `output = {"sentence": s}` for the response
   * item with its checksum, nothing else in an entry changes, and the request
   * gains `output = {"subtitle": response.subtitle}`; its other fields stay.
   */
  lemma SuccessAttachesSentences(fields: map<string, Json>, response: Response)
    requires Reconcile(fields, response).error.None?
    ensures var out := Reconcile(fields, response).fields;
      var entries := InputEntries(Get(fields, "data"));
      && "output" in out && out["output"] == SubtitleOutput(response)
      && (forall f :: f != "output" && f != "data" ==> (f in out <==> f in fields) && (f in fields ==> out[f] == fields[f]))
      && EntriesWellFormed(entries)
      && (Get(fields, "data").JArr? ==>
            && "data" in out && out["data"].JArr? && |out["data"].items| == |entries|
            && forall i :: 0 <= i < |entries| ==>
                 exists j ::
                   && 0 <= j < |response.data|
                   && Get(entries[i].fields, "checksum") == JStr(response.data[j].checksum)
                   && out["data"].items[i] == WithOutput(entries[i], response.data[j].sentence))
  {
    SucceedsExactly(fields, response);
    AfterLoopErrorsReached(fields, response);
    var entries := InputEntries(Get(fields, "data"));
    var index := ByChecksum(response.data);
    LoopCompletes(entries, index);
    forall i | 0 <= i < |entries|
      ensures exists j ::
        && 0 <= j < |response.data|
        && Get(entries[i].fields, "checksum") == JStr(response.data[j].checksum)
        && AllApplied(entries, index)[i] == WithOutput(entries[i], response.data[j].sentence)
    {
      AppliedOnSuccess(entries, response, i);
    }
  }

  // ---------------------------------------------------------------------------
  // append_response_json on the request object
  // ---------------------------------------------------------------------------

  /** The request document, a dict updated in place. */
  class RequestJson {
    var fields: map<string, Json>

    constructor(fields: map<string, Json>)
      ensures this.fields == fields
    {
      this.fields := fields;
    }
  }

  /**
   * The indexing loop: `response_by_checksum`, or the first duplicate. It
   * succeeds exactly when the checksums are distinct, and then maps each
   * item's checksum to that item's sentence.
   */
  method IndexByChecksum(data: seq<VocabSentence>) returns (r: Result<map<string, string>, ReconcileError>)
    ensures r.Ok? <==> DistinctChecksums(data)
    ensures r.Ok? ==> r.value == ByChecksum(data) && r.value.Keys == ResponseChecksums(data)
                      && forall i :: 0 <= i < |data| ==> r.value[data[i].checksum] == data[i].sentence
    ensures r.Err? ==> FirstRepeat(data).Some? && r == Err(DuplicateChecksum(FirstRepeat(data).value))
                       && exists i, j :: 0 <= i < j < |data| && data[i].checksum == r.error.checksum == data[j].checksum
  {
    FirstRepeatFindsDuplicates(data);
    var byChecksum: map<string, string> := map[];
    for i := 0 to |data|
      invariant FirstRepeat(data[..i]).None?
      invariant byChecksum == ByChecksum(data[..i])
    {
      var item := data[i];
      assert data[..i + 1][..i] == data[..i];
      if item.checksum in byChecksum {
        FirstRepeatPrefix(data, i + 1);
        return Err(DuplicateChecksum(item.checksum));
      }
      byChecksum := byChecksum[item.checksum := item.sentence];
    }
    assert data[..|data|] == data;
    forall i | 0 <= i < |data| ensures byChecksum[data[i].checksum] == data[i].sentence {
      ByChecksumFindsItem(data, i);
    }
    return Ok(byChecksum);
  }

  /**
   * The entry loop on the request object: each matched entry receives its
   * `output` in place as it is reached; the loop stops at the first bad entry.
   */
  method MatchEntries(request: RequestJson, index: map<string, string>)
    returns (missing: seq<Json>, error: Option<ReconcileError>)
    requires "data" in request.fields && request.fields["data"].JArr?
    modifies request
    ensures var p := ProcessEntries(old(request.fields)["data"].items, index);
      request.fields == old(request.fields)["data" := JArr(p.entries)] && missing == p.missing && error == p.error
  {
    var entries := request.fields["data"].items;
    var updated := entries;
    missing := [];
    ghost var before := request.fields;
    assert before["data" := JArr(entries)] == before;
    for i := 0 to |entries|
      invariant |updated| == |entries|
      invariant ProcessEntries(entries[..i], index) == Progress(updated[..i], missing, None)
      invariant updated[i..] == entries[i..]
      invariant request.fields == before["data" := JArr(updated)]
    {
      ProcessEntriesSnoc(entries, i, index);
      var step := EntryStep(entries[i], index);
      match step
      case Err(e) =>
        ProcessEntriesPrefixErr(entries, i + 1, index);
        UpdateStep(updated, entries, i, entries[i]);
        return missing, Some(e);
      case Ok(Matched(entry)) =>
        UpdateStep(updated, entries, i, entry);
        updated := updated[i := entry];
        request.fields := request.fields["data" := JArr(updated)];
      case Ok(Unmatched(checksum)) =>
        UpdateStep(updated, entries, i, entries[i]);
        missing := missing + [checksum];
    }
    assert entries[..|entries|] == entries && updated[..|entries|] == updated;
    return missing, None;
  }

  /** `append_response_json`: on success the same request object is returned. */
  method AppendResponseJson(request: RequestJson, response: Response) returns (r: Result<RequestJson, ReconcileError>)
    modifies request
    ensures request.fields == Reconcile(old(request.fields), response).fields
    ensures r.Ok? <==> Reconcile(old(request.fields), response).error.None?
    ensures r.Ok? ==> r.value == request
    ensures r.Err? ==> Reconcile(old(request.fields), response).error == Some(r.error)
  {
    var docChecksum := Get(request.fields, "doc_checksum");
    if !Truthy(docChecksum) {
      return Err(MissingDocChecksum);
    }
    if !PyEq(JStr(response.docChecksum), docChecksum) {
      return Err(DocChecksumMismatch(docChecksum, response.docChecksum));
    }
    FirstRepeatFindsDuplicates(response.data);
    var indexed := IndexByChecksum(response.data);
    if indexed.Err? {
      return Err(indexed.error);
    }
    var byChecksum := indexed.value;

    var data := Get(request.fields, "data");
    if Truthy(data) && !data.JArr? {
      return Err(MalformedData);
    }
    var entries := InputEntries(data);
    var missing: seq<Json>, error: Option<ReconcileError> := [], None;
    if data.JArr? {
      missing, error := MatchEntries(request, byChecksum);
    }
    if error.Some? {
      return Err(error.value);
    }
    var extra := Extra(response.data, InputChecksums(entries));
    if |missing| > 0 {
      if AllStrings(missing) {
        return Err(MissingChecksums(SortStrings(Strs(missing))));
      }
      return Err(MissingChecksumNotString);
    }
    if |extra| > 0 {
      return Err(UnexpectedChecksums(SortStrings(extra)));
    }
    request.fields := request.fields["output" := SubtitleOutput(response)];
    return Ok(request);
  }
}
