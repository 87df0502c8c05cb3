/**
 * The catalogs of source datasets and themes. Each catalog file holds a list
 * of records (or a single record); loading keeps the records that have a
 * `key_name`, in file order, and fills in display defaults. A lookup finds
 * the record with a given `key_name`.
 *
 * Reading and parsing the file is not modelled: the loaders start from the
 * parsed JSON value.
 */
module ReferenceData {
  import opened PyJson
  import opened Results
  import opened Text

  /** The two catalogs: `load_source_datasets` and `load_themes` differ only in the record they build. */
  datatype Catalog = SourceDatasets | Themes

  datatype CatalogError =
    | NotListOrObject     // ValueError: the file must hold a list or an object
    | ItemNotObject       // `item.get` on a list element that is not a dict
    | KeyNameNotString    // `key_name.replace` when the title falls back and `key_name` is not a str
    | UnhashableKey       // a list or dict used as a dictionary key in a lookup

  /** A dict payload is a one-element list, a list is taken as it is, anything else is an error. */
  function AsItems(data: Json): Result<seq<Json>, CatalogError> {
    if data.JObj? then Ok([data])
    else if data.JArr? then Ok(data.items)
    else Err(NotListOrObject)
  }

  /** `value or default` */
  function Or(value: Json, default: Json): Json {
    if Truthy(value) then value else default
  }

  /** `key_name.replace("_", " ").title()` */
  function DefaultTitle(keyName: string): (r: string)
    ensures |r| == |keyName|
  {
    ReplaceKeepsLength(keyName, "_", " ");
    TitleCase(Replace(keyName, "_", " "))
  }

  predicate LowerWord(w: string) {
    |w| > 0 && forall c :: c in w ==> IsAsciiLower(c)
  }

  /** A key name of two lower-case words joined by `_` is shown as the two words capitalised, with a space. */
  lemma DefaultTitleOfTwoWords(a: string, b: string)
    requires LowerWord(a) && LowerWord(b)
    ensures DefaultTitle(a + "_" + b) == [UpperChar(a[0])] + a[1..] + " " + [UpperChar(b[0])] + b[1..]
  {
    assert !IsAsciiLower('_') && '_' !in a;
    ReplaceFirstOccurrence(a, b, "_", " ");
    assert !IsAsciiLower('_') && '_' !in b;
    FreeOfHead(b, [], "_");
    ReplaceWithoutOccurrence(b, "_", " ");
    var spaced := a + " " + b;
    assert Replace(a + "_" + b, "_", " ") == spaced;
    var t := TitleCase(spaced);
    var expected := [UpperChar(a[0])] + a[1..] + " " + [UpperChar(b[0])] + b[1..];
    forall i | 0 <= i < |t| ensures t[i] == expected[i] {
      if 0 < i < |a| {
        assert spaced[i - 1] == a[i - 1] && a[i - 1] in a && a[i] in a;
      } else if i == |a| {
        assert spaced[i - 1] == a[i - 1] && a[i - 1] in a;
      } else if i > |a| + 1 {
        var j := i - |a| - 1;
        assert spaced[i - 1] == b[j - 1] && b[j - 1] in b && b[j] in b;
      }
    }
  }

  /** The record one catalog item becomes, given its truthy `key_name` and its display title. */
  function Record(kind: Catalog, item: map<string, Json>, keyName: Json, title: Json): map<string, Json> {
    var common := map[
      "id" := keyName, "key_name" := keyName, "title" := title,
      "title_abbr" := Or(Get(item, "title_abbr"), JStr(""))
    ];
    match kind
    case SourceDatasets => common
    case Themes =>
      common["css_class" := GetOr(item, "css_class", JStr(""))]
            ["ui_title" := Or(Get(item, "ui_title"), title)]
            ["ui_subtitle" := GetOr(item, "ui_subtitle", JStr(""))]
  }

  /** One pass of the loop: the record, `None` for an item skipped for a missing or empty `key_name`, or the error raised. */
  function NormalizeItem(kind: Catalog, item: Json): Result<Option<Json>, CatalogError> {
    if !item.JObj? then Err(ItemNotObject)
    else
      var keyName := Get(item.fields, "key_name");
      if !Truthy(keyName) then Ok(None)
      else
        var title := Get(item.fields, "title");
        if Truthy(title) then Ok(Some(JObj(Record(kind, item.fields, keyName, title))))
        else if keyName.JStr? then Ok(Some(JObj(Record(kind, item.fields, keyName, JStr(DefaultTitle(keyName.s))))))
        else Err(KeyNameNotString)
  }

  /** The records built from `items`, in order, or the first error raised. */
  function NormalizeItems(kind: Catalog, items: seq<Json>): Result<seq<Json>, CatalogError> {
    if items == [] then Ok([])
    else
      match NormalizeItems(kind, items[..|items| - 1])
      case Err(e) => Err(e)
      case Ok(records) =>
        match NormalizeItem(kind, items[|items| - 1])
        case Err(e) => Err(e)
        case Ok(None) => Ok(records)
        case Ok(Some(record)) => Ok(records + [record])
  }

  /** The catalog loaded from the parsed file. */
  function LoadSpec(kind: Catalog, data: Json): Result<seq<Json>, CatalogError> {
    match AsItems(data)
    case Err(e) => Err(e)
    case Ok(items) => NormalizeItems(kind, items)
  }

  /** `load_source_datasets` / `load_themes` after the file is parsed: the filter-and-append loop. */
  method LoadCatalog(kind: Catalog, data: Json) returns (r: Result<seq<Json>, CatalogError>)
    ensures r == LoadSpec(kind, data)
  {
    if data.JObj? {
      NormalizeSingle(kind, data);
    }
    if !data.JObj? && !data.JArr? {
      return Err(NotListOrObject);
    }
    var items := if data.JObj? then [data] else data.items;
    var records: seq<Json> := [];
    for i := 0 to |items|
      invariant NormalizeItems(kind, items[..i]) == Ok(records)
    {
      assert items[..i + 1][..i] == items[..i];
      var item := items[i];
      if !item.JObj? {
        ErrorPersists(kind, items, i + 1, ItemNotObject);
        return Err(ItemNotObject);
      }
      var keyName := Get(item.fields, "key_name");
      if !Truthy(keyName) {
        continue;
      }
      var title := Get(item.fields, "title");
      if !Truthy(title) {
        if !keyName.JStr? {
          ErrorPersists(kind, items, i + 1, KeyNameNotString);
          return Err(KeyNameNotString);
        }
        title := JStr(DefaultTitle(keyName.s));
      }
      records := records + [JObj(Record(kind, item.fields, keyName, title))];
    }
    assert items[..|items|] == items;
    r := Ok(records);
  }

  lemma NormalizeSingle(kind: Catalog, data: Json)
    ensures NormalizeItems(kind, [data]) == NormalizeItems(kind, [data][..1])
  {
  }

  /** Once an error is raised, the rest of the items are not looked at. */
  lemma {:induction false} ErrorPersists(kind: Catalog, items: seq<Json>, n: nat, e: CatalogError)
    requires n <= |items|
    requires NormalizeItems(kind, items[..n]) == Err(e)
    ensures NormalizeItems(kind, items) == Err(e)
    decreases |items| - n
  {
    if n < |items| {
      assert items[..n + 1][..n] == items[..n];
      ErrorPersists(kind, items, n + 1, e);
    } else {
      assert items[..n] == items;
    }
  }

  // ---------------------------------------------------------------------------
  // What loading promises
  // ---------------------------------------------------------------------------

  /** A record's `key_name`, or None when it has none. */
  function KeyNameOf(v: Json): Json {
    if v.JObj? then Get(v.fields, "key_name") else JNull
  }

  /** The truthy `key_name`s of the dict items, in order. */
  function TruthyKeyNames(items: seq<Json>): seq<Json> {
    if items == [] then []
    else
      var k := KeyNameOf(items[|items| - 1]);
      TruthyKeyNames(items[..|items| - 1]) + (if Truthy(k) then [k] else [])
  }

  predicate WellFormedRecord(kind: Catalog, v: Json) {
    && v.JObj?
    && "id" in v.fields && "key_name" in v.fields && "title" in v.fields && "title_abbr" in v.fields
    && v.fields["id"] == v.fields["key_name"]
    && Truthy(v.fields["key_name"]) && Truthy(v.fields["title"])
    && (kind == Themes ==> "ui_title" in v.fields && Truthy(v.fields["ui_title"]))
  }

  /**
   * Loading keeps exactly the items with a truthy `key_name`, in their input
   * order, and every record has `id == key_name` and a non-empty title.
   */
  lemma {:induction false} NormalizeKeepsKeyedItems(kind: Catalog, items: seq<Json>)
    requires NormalizeItems(kind, items).Ok?
    ensures var records := NormalizeItems(kind, items).value;
      && |records| == |TruthyKeyNames(items)|
      && (forall i :: 0 <= i < |records| ==> KeyNameOf(records[i]) == TruthyKeyNames(items)[i])
      && (forall i :: 0 <= i < |records| ==> WellFormedRecord(kind, records[i]))
  {
    if items != [] {
      var init := items[..|items| - 1];
      var item := items[|items| - 1];
      NormalizeKeepsKeyedItems(kind, init);
      NormalizeItemKeeps(kind, item);
      var before := NormalizeItems(kind, init).value;
      var keys := TruthyKeyNames(init);
      var records := NormalizeItems(kind, items).value;
      match NormalizeItem(kind, item).value
      case None =>
        assert records == before && TruthyKeyNames(items) == keys;
      case Some(record) =>
        assert records == before + [record];
        assert TruthyKeyNames(items) == keys + [KeyNameOf(item)];
    }
  }

  /** One item is kept exactly when its `key_name` is truthy, as a well-formed record with that `key_name`. */
  lemma NormalizeItemKeeps(kind: Catalog, item: Json)
    requires NormalizeItem(kind, item).Ok?
    ensures NormalizeItem(kind, item).value.Some? <==> Truthy(KeyNameOf(item))
    ensures NormalizeItem(kind, item).value.Some? ==>
      && KeyNameOf(NormalizeItem(kind, item).value.value) == KeyNameOf(item)
      && WellFormedRecord(kind, NormalizeItem(kind, item).value.value)
  {
    if NormalizeItem(kind, item).value.Some? {
      var keyName := Get(item.fields, "key_name");
      if !Truthy(Get(item.fields, "title")) {
        assert |DefaultTitle(keyName.s)| == |keyName.s| > 0;
      }
    }
  }

  /** Loading fails exactly when an item is not a dict, or a kept item without a title has a `key_name` that is not a string. */
  lemma {:induction false} NormalizeFails(kind: Catalog, items: seq<Json>)
    ensures NormalizeItems(kind, items).Err? <==>
      exists i :: 0 <= i < |items| && NormalizeItem(kind, items[i]).Err?
  {
    if items != [] {
      var init := items[..|items| - 1];
      NormalizeFails(kind, init);
      if NormalizeItems(kind, init).Err? {
        var i :| 0 <= i < |init| && NormalizeItem(kind, init[i]).Err?;
        assert items[i] == init[i];
      }
      if NormalizeItems(kind, items).Err? {
      } else {
        forall i | 0 <= i < |items| ensures NormalizeItem(kind, items[i]).Ok? {
          if i < |init| {
            assert items[i] == init[i];
          }
        }
      }
    }
  }

  /** A dict payload behaves as the list holding only it. */
  lemma ObjectIsOneElementList(kind: Catalog, fields: map<string, Json>)
    ensures LoadSpec(kind, JObj(fields)) == LoadSpec(kind, JArr([JObj(fields)]))
  {
  }

  /** A payload that is neither a list nor a dict is rejected. */
  lemma OtherPayloadRejected(kind: Catalog, data: Json)
    requires !data.JObj? && !data.JArr?
    ensures LoadSpec(kind, data) == Err(NotListOrObject)
  {
  }

  /**
   * The defaults of a theme: without `title`, `title_abbr`, `css_class`,
   * `ui_title` and `ui_subtitle`, a theme with key name `k` is shown as the
   * title-cased `k`, with empty abbreviation, class and subtitle.
   */
  lemma ThemeDefaults(k: string)
    requires |k| > 0
    ensures NormalizeItem(Themes, JObj(map["key_name" := JStr(k)])) == Ok(Some(JObj(map[
      "id" := JStr(k), "key_name" := JStr(k), "title" := JStr(DefaultTitle(k)), "title_abbr" := JStr(""),
      "css_class" := JStr(""), "ui_title" := JStr(DefaultTitle(k)), "ui_subtitle" := JStr("")])))
  {
  }

  /**
   * The defaults of a source dataset: with an empty `title` and no
   * `title_abbr`, the dataset is shown as the title-cased key name with an
   * empty abbreviation, and it carries only the four catalog fields.
   */
  lemma SourceDatasetDefaults(k: string, extra: map<string, Json>)
    requires |k| > 0 && "key_name" !in extra && "title" !in extra && "title_abbr" !in extra
    ensures NormalizeItem(SourceDatasets, JObj(extra["key_name" := JStr(k)]["title" := JStr("")])) == Ok(Some(JObj(map[
      "id" := JStr(k), "key_name" := JStr(k), "title" := JStr(DefaultTitle(k)), "title_abbr" := JStr("")])))
  {
  }

  /** An explicit title, abbreviation and UI title are kept as given. */
  lemma GivenTitlesKept(kind: Catalog, item: map<string, Json>)
    requires "key_name" in item && Truthy(item["key_name"])
    requires "title" in item && Truthy(item["title"])
    requires "title_abbr" in item && Truthy(item["title_abbr"])
    ensures var r := NormalizeItem(kind, JObj(item));
      && r.Ok? && r.value.Some?
      && r.value.value.fields["title"] == item["title"]
      && r.value.value.fields["title_abbr"] == item["title_abbr"]
      && r.value.value.fields["id"] == item["key_name"]
      && (kind == Themes && "ui_title" in item && Truthy(item["ui_title"]) ==>
            r.value.value.fields["ui_title"] == item["ui_title"])
  {
  }

  // ---------------------------------------------------------------------------
  // lookup_source_dataset / lookup_theme
  // ---------------------------------------------------------------------------

  /** The comprehension indexes `record` under a key equal to `key`: its `key_name` is truthy and `==` to it. */
  predicate IndexedUnder(record: Json, key: Json) {
    Truthy(KeyNameOf(record)) && PyEq(KeyNameOf(record), key)
  }

  /** The last record indexed under `key`, if any. */
  function FindLast(records: seq<Json>, key: Json): (r: Option<nat>)
    ensures r.Some? ==> r.value < |records| && IndexedUnder(records[r.value], key)
                        && forall j :: r.value < j < |records| ==> !IndexedUnder(records[j], key)
    ensures r.None? ==> forall j :: 0 <= j < |records| ==> !IndexedUnder(records[j], key)
  {
    if records == [] then None
    else if IndexedUnder(records[|records| - 1], key) then Some(|records| - 1)
    else FindLast(records[..|records| - 1], key)
  }

  /**
   * `{item.get("key_name"): item for item in records if item.get("key_name")}.get(key)`:
   * a later record with an equal key overwrites an earlier one. A key that is
   * a list or dict cannot be hashed.
   */
  function LookupIn(records: seq<Json>, key: Json): Result<Option<Json>, CatalogError> {
    if exists i :: 0 <= i < |records| && Truthy(KeyNameOf(records[i])) && !Hashable(KeyNameOf(records[i])) then
      Err(UnhashableKey)
    else if !Hashable(key) then Err(UnhashableKey)
    else
      match FindLast(records, key)
      case None => Ok(None)
      case Some(i) => Ok(Some(records[i]))
  }

  /** `lookup_source_dataset(key)` / `lookup_theme(key)`: load the catalog, then look the key up. */
  function Lookup(kind: Catalog, data: Json, key: Json): Result<Option<Json>, CatalogError> {
    match LoadSpec(kind, data)
    case Err(e) => Err(e)
    case Ok(records) => LookupIn(records, key)
  }

  /**
   * A lookup that succeeds returns a record with that key and no later record
   * has it (the last one wins), or returns None when no record has it.
   */
  lemma LookupFindsLast(records: seq<Json>, key: Json)
    requires LookupIn(records, key).Ok?
    ensures var r := LookupIn(records, key).value;
      && (r.Some? ==> exists i :: 0 <= i < |records| && records[i] == r.value
                         && IndexedUnder(records[i], key)
                         && forall j :: i < j < |records| ==> !IndexedUnder(records[j], key))
      && (r.None? <==> forall j :: 0 <= j < |records| ==> !IndexedUnder(records[j], key))
  {
  }

  /** A record whose `key_name` is falsy is left out of the index, even for a key equal to it. */
  lemma FalsyKeyNameNotIndexed(fields: map<string, Json>)
    requires Get(fields, "key_name") == JStr("")
    ensures LookupIn([JObj(fields)], JStr("")) == Ok(None)
  {
  }

  /** Two records with the same key name: the lookup returns the second. */
  lemma LastDuplicateWins(a: map<string, Json>, b: map<string, Json>, k: string)
    requires |k| > 0 && Get(a, "key_name") == JStr(k) && Get(b, "key_name") == JStr(k)
    ensures LookupIn([JObj(a), JObj(b)], JStr(k)) == Ok(Some(JObj(b)))
  {
    assert [JObj(a), JObj(b)][..1] == [JObj(a)];
  }
}
