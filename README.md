# Vocabulary worksheet pipeline, modelled in Dafny

This project models the request pipeline behind the vocabulary worksheets. The pipeline runs from the reference catalogs to the text that is laid out on the PDF:

- **Reference catalogs** (`Libraries/reference_data.py`, module `ReferenceData`). The source-dataset and theme catalogs are lists of records, or a single record. Loading keeps the records that have a `key_name`, in file order, and fills in display defaults. A lookup returns the last record whose truthy `key_name` equals the key.
- **Phase 2, cache lookup** (`Scripts/phase2.py`, module `CacheLookup`). The reading-level path segment is built, and the cache path is joined with pathlib's `/` in a fixed segment order: source dataset, theme, reading level, model, section, `{seed}.json`. The join is modelled as pathlib does it on POSIX: a segment holding `/` adds several parts, an empty one adds none, and an absolute one starts the path over. The lookup answers with `{"request", "payload"}` or with an error.
- **Phase 3, request expansion** (`Scripts/phase3.py`, module `RequestExpansion`). The section is found, the reading-level token is built, and a content-addressed `doc_key`/`doc_checksum` is derived. Each vocabulary entry gets a `key = doc_key|word|part_of_speech|definition` and a 16-character checksum, in entry order.
- **Phase 4, reconciliation** (`Scripts/phase4.py`, module `Reconciliation`). The reading level is turned into a phrase and filled into the system prompt. The generator's response is reconciled with the request document: `doc_checksum` is checked, response items are indexed and duplicates rejected, and `output.sentence` is attached in place. All missing checksums, then all extra ones, are reported sorted. On success `output.subtitle` is attached. The request document is a class whose `fields` the methods update.
- **Phase 5, worksheet text** (`Scripts/phase5.py`, modules `Worksheet` and `WordBank`). This covers ASCII normalisation of punctuation, the visible blank and the `-ed` base-form heuristic. It also covers the word bank (counts per guessed base form, labelled by the most common spelling, sorted case-insensitively) and question-block heights. Finally it covers the page-1 fit loop and `{placeholder}` interpolation for the section title and the footers.

Supporting modules:

- `Results` holds `Option` and `Result`.
- `PyJson` holds JSON values with Python's truthiness, `==` (where `True == 1`), hashability and `str` of scalars.
- `Text` holds Python's `str.replace` (leftmost, non-overlapping), `{key}` placeholders, `strip` over Python's whitespace set, ASCII `lower`/`title`, and sorting of strings.

Two things are parameters rather than definitions:

- **SHA-256.** The parameter `sha` is any function returning 64 lower-case hexadecimal digits.
- **Python's `str` of a list or dict.** The parameter `containerStr` stands for it.

Imperative code is modelled with loops and invariants:

- the section search;
- the entry expansion;
- the response index;
- the entry-matching loop over the request object;
- normalisation;
- the word-bank counting loops;
- the page-1 fit loop;
- the title and footer substitution loops;
- the catalog filter-and-append loop.

Each of these methods is proved equal to a specification function, or is described completely by its `ensures`, as the section search is. The properties are proved about those functions.

## Model

| member | source | states |
|---|---|---|
| CacheLookup.SegmentExample | Scripts/phase2.py:13-14 | `{"system": "fp", "level": "P"}` gives the segment `fp_P` |
| CacheLookup.SegmentOfStrings | Scripts/phase2.py:18-22 | a dict with string `system` and `level` gives exactly `system + "_" + level`, whatever other keys it has |
| CacheLookup.FalsyLevelStillJoined | Scripts/phase2.py:21-22 | a level of `0` or `""` still takes the dict branch, because the test is `is not None` |
| CacheLookup.SegmentFallback | Scripts/phase2.py:18-24 | a non-dict, or a dict where `system` or `level` is missing or null, gives `str(reading_level)` |
| CacheLookup.FirstMissing | Scripts/phase2.py:80-89 | reports nothing exactly when every name is present; otherwise it reports the first absent name, all earlier names being present |
| CacheLookup.FirstMissingRequired | Scripts/phase2.py:80-89 | the first-missing scan over the six required fields succeeds exactly when all six are present |
| CacheLookup.LookupCachedPayload | Scripts/phase2.py:80-126 | a non-dict request and a missing required field are errors that name the first absent field. A path that is not in the store is `CacheFileNotFound` at that path. A stored file that parsed gives exactly `{"request": request, "payload": payload}`, and an unreadable one gives `CacheFileUnreadable` at that path |
| CacheLookup.AbsentFileIsNeverAPayload | Scripts/phase2.py:107-112 | a path that is not a file never yields a payload |
| CacheLookup.Pieces | Scripts/phase2.py:97-105 | pathlib splits a segment into parts that are each non-empty, not `.` and free of `/` |
| CacheLookup.PiecesOfNamed | Scripts/phase2.py:97-105 | a non-empty segment other than `.` and without `/` is one part |
| CacheLookup.JoinNamed | Scripts/phase2.py:97-105 | `/` with such a segment appends it to the parts and keeps the anchor |
| CacheLookup.JoinAbsolute | Scripts/phase2.py:97-105 | `/` with a segment that starts with `/` forgets the left-hand path |
| CacheLookup.JoinEmpty | Scripts/phase2.py:97-105 | `/` with `""` changes nothing |
| CacheLookup.SlashSplitsSegment | Scripts/phase2.py:97-105 | a segment `a/b` adds two parts |
| CacheLookup.EmptyAndDotPiecesVanish | Scripts/phase2.py:97-105 | empty pieces and `.` add no part |
| CacheLookup.DoubleSlashAnchor | Scripts/phase2.py:93 | exactly two leading slashes are kept as the anchor `//`; three or more become `/` |
| CacheLookup.CachePathLayout | Scripts/phase2.py:97-105 | when each of the six segments is a single named part, the path is the datastore root followed by exactly the six: source dataset, theme, reading-level segment, model, section, and `str(seed) + ".json"` |
| CacheLookup.AbsoluteSeedOverridesPath | Scripts/phase2.py:97-105 | a seed whose `str` starts with `/` makes the path that seed file alone, whatever the datastore and the other fields |
| CacheLookup.NatToDecimalInjective | Scripts/phase2.py:103 | distinct naturals print differently |
| CacheLookup.DecimalSign | Scripts/phase2.py:103 | an integer prints as a non-empty string that starts with `-` exactly when it is negative |
| CacheLookup.IntToDecimalInjective | Scripts/phase2.py:103 | distinct integers print differently |
| CacheLookup.DecimalNamed | Scripts/phase2.py:103 | `str` of an integer is one named part |
| CacheLookup.SectionSeparatesCachePaths | Scripts/phase2.py:97-105 | two requests that differ only in an integer section get different cache paths, unless the seed's `str` starts with `/` |
| RequestExpansion.Sha256Prefix16 | Scripts/phase3.py:79-80 | the checksum is 16 lower-case hex digits and a prefix of the digest |
| RequestExpansion.FindSection | Scripts/phase3.py:60-65 | returns the first section whose `section` equals the number, all earlier ones being dicts that do not match. It gives `SectionNotFound` exactly when every section is a dict and none matches. A non-dict section or a non-iterable `sections` is an error |
| RequestExpansion.TokenAgreesWithSegment | Scripts/phase3.py:68-76 | the token exists exactly when the phase 2 dict branch applies, and it differs from the phase 2 segment only in `-` for `_` |
| RequestExpansion.ExpandEntry | Scripts/phase3.py:120-146 | an entry expands exactly when it is a dict with string `word`, `part_of_speech` and `definition` |
| RequestExpansion.ExpandedItem | Scripts/phase3.py:121-146 | the item has exactly the six fields, copies `word`, `part_of_speech` and `definition`, and has `def_num` null when absent. Its `key` extends `doc_key + "|"` and its `checksum` is the 16-digit prefix of the key's digest |
| RequestExpansion.ExpandEntries | Scripts/phase3.py:119-146 | succeeds exactly when every entry is valid. Then the items correspond one-to-one, in order. Otherwise the error is the first invalid entry's |
| RequestExpansion.PrepareDocumentFields | Scripts/phase3.py:85-89 | a prepared document implies the five top-level fields were present |
| RequestExpansion.BuildOutput | Scripts/phase3.py:83-164 | the append loop computes the specified output document |
| RequestExpansion.ExpandEntriesPrefixErr | Scripts/phase3.py:119-146 | an error raised on a prefix of the entries is the error of the whole list |
| RequestExpansion.SectionOutput | Scripts/phase3.py:190-192 | the document built from a section's `entries`: a list gives `build_output`'s result, and a string, dict or other value fails after the header is prepared |
| RequestExpansion.SectionOutputOk | Scripts/phase3.py:190-192 | a section yields a document only when its `entries` is a list, and the document is then built from that list |
| RequestExpansion.BuildRequest | Scripts/phase3.py:181-192 | every outcome is fixed. A non-dict request, a missing `source_dataset` or a missing top-level `section` is an error, in that order. The section search's errors pass through: a non-dict dataset, non-iterable `sections`, `SectionNotFound` when every section is a non-matching dict, and a non-dict section met before any match. Otherwise the result is `SectionOutput` of the first matching section, and success happens only that way |
| RequestExpansion.FirstFoundUnique | Scripts/phase3.py:60-65 | the search's outcomes exclude each other: a found section is the only first match, and an error means there is no first match |
| RequestExpansion.DocKeyIgnoresSection | Scripts/phase3.py:105-116 | two requests agreeing on the five keyed fields get the same `doc_key` and `doc_checksum`, whatever their sections |
| RequestExpansion.DocKeyLayout | Scripts/phase3.py:105-116 | `doc_key` is source_dataset, token, model, theme and `str(seed)` joined by `|`, and `doc_checksum` is the first 16 digits of its digest |
| RequestExpansion.SectionNumberSource | Scripts/phase3.py:91-98 | the section number is `metadata.section` when that key is present, else the top-level `section`, and it is never null |
| RequestExpansion.MissingSectionOrHeaderIsError | Scripts/phase3.py:93-103 | no section in either place, or a missing header or footer, is an error |
| RequestExpansion.OutputCopiesRequest | Scripts/phase3.py:148-163 | the output copies source_dataset, reading_level, theme, model and seed. `type` defaults to `build_request`, and `metadata` is exactly `{section, header, footer}` |
| RequestExpansion.DocumentFields | Scripts/phase3.py:148-163 | the document constructor places each copied and derived field |
| RequestExpansion.OutputData | Scripts/phase3.py:119-162 | `data` has one item per entry, in order, each the expansion of that entry |
| RequestExpansion.ItemKeysExtendDocKey | Scripts/phase3.py:127-135 | every item key starts with `doc_key + "|"`, and its checksum is that key's 16-digit prefix |
| Reconciliation.ReadingLevelStr | Scripts/phase4.py:100-116 | a phrase is produced exactly when `reading_level` is a non-empty dict with truthy `system` and `level`, and the system is `fp` or `grade`. A falsy `reading_level` is the unbound-variable error |
| Reconciliation.FountasPinnellPhrase | Scripts/phase4.py:107-108 | `fp` gives `Fountas & Pinnell level {level}` |
| Reconciliation.GradeOrdinals | Scripts/phase4.py:109-113 | grade 1 and 2 give `1st` and `2nd`, and so does `True`, which equals 1 |
| Reconciliation.GradeThSuffix | Scripts/phase4.py:109-114 | every other truthy grade gives `{level}th-grade reading level` |
| Reconciliation.GradeThree | Scripts/phase4.py:114 | grade 3 gives `3th-grade reading level` |
| Reconciliation.GradeStringTwo | Scripts/phase4.py:110-114 | the string `"2"` is not the integer 2 and gives `2th` |
| Reconciliation.OtherSystemsUnsupported | Scripts/phase4.py:115-116 | any other system is `UnsupportedSystem` |
| Reconciliation.BraceFreeHasNoPlaceholder | Scripts/phase4.py:127 | a text without braces contains no placeholder |
| Reconciliation.FleshOutFillsPlaceholder | Scripts/phase4.py:125-128 | `{reading_level}` in the prompt becomes the reading-level phrase, and the rest is kept |
| Reconciliation.FleshOutWithoutPlaceholder | Scripts/phase4.py:125-128 | a prompt without the placeholder is returned unchanged |
| Reconciliation.ResponseChecksumsSnoc | Scripts/phase4.py:233-236 | the response's checksum set grows by one item per step |
| Reconciliation.FirstRepeatFindsDuplicates | Scripts/phase4.py:233-235 | the scan reports no repeat exactly when the checksums are distinct. A reported checksum occurs twice, and the prefix before its second occurrence is distinct |
| Reconciliation.FirstRepeatPrefix | Scripts/phase4.py:233-235 | a repeat found in a prefix is the repeat of the whole list |
| Reconciliation.ByChecksum | Scripts/phase4.py:232-236 | the index's keys are exactly the response checksums |
| Reconciliation.ByChecksumFindsItem | Scripts/phase4.py:236 | with distinct checksums, each checksum indexes its own item's sentence |
| Reconciliation.AppliedChangesOnlyOutput | Scripts/phase4.py:241-251 | a matched entry gains `output = {"sentence": s}` for its response item, no other field changes, and an unmatched entry is unchanged |
| Reconciliation.ProcessEntries | Scripts/phase4.py:238-251 | the entry loop keeps one entry per input entry |
| Reconciliation.ProcessEntriesSucceeds | Scripts/phase4.py:241-251 | the loop finishes exactly when every entry is well formed, and then every entry has been updated |
| Reconciliation.ProcessEntriesStops | Scripts/phase4.py:241-244 | an error is raised by some entry. The entries before it are already updated and the rest are untouched |
| Reconciliation.StopsAtCarries | Scripts/phase4.py:241-244 | once the loop has stopped, a later entry is passed through untouched |
| Reconciliation.StopsAtAppend | Scripts/phase4.py:241-244 | an entry appended after the loop has stopped is kept as it is, and the stop stays at the same entry |
| Reconciliation.StopsAtLast | Scripts/phase4.py:241-244 | an error from an entry after only good ones stops the loop at that entry |
| Reconciliation.UnmatchedChecksumsMembers | Scripts/phase4.py:246-249 | a checksum is in the unmatched list exactly when some dict entry has it and the index does not match it |
| Reconciliation.ProcessEntriesMissing | Scripts/phase4.py:246-249 | the missing list is one checksum per unmatched entry, in entry order, repeats kept |
| Reconciliation.ProcessEntriesSnoc | Scripts/phase4.py:241-251 | the loop over one more entry is one more step |
| Reconciliation.UpdateStep | Scripts/phase4.py:251 | updating entry `i` in place splits the list at `i` |
| Reconciliation.ProcessEntriesPrefixErr | Scripts/phase4.py:241-244 | an error on a prefix stops the whole loop there and leaves the remaining entries as they were |
| Reconciliation.Extra | Scripts/phase4.py:253-255 | the extra checksums are exactly the response checksums that no input entry has |
| Reconciliation.Strs | Scripts/phase4.py:259 | the missing checksums, as strings, one per value |
| Reconciliation.PyEqStr | Scripts/phase4.py:227 | a string equals a value under Python `==` only when the value is that string |
| Reconciliation.DocChecksumChecked | Scripts/phase4.py:223-230 | a missing or empty request `doc_checksum` is an error, and so is one unequal to the response's. Both leave the request untouched |
| Reconciliation.DuplicatesRejectedFirst | Scripts/phase4.py:232-236 | a duplicate response checksum is an error naming a checksum that occurs twice, raised before any entry is touched |
| Reconciliation.EarlyErrorsChangeNothing | Scripts/phase4.py:223-238 | every error raised before the entry loop leaves the request unchanged |
| Reconciliation.ReachesFinish | Scripts/phase4.py:238-268 | once the entry loop is reached, the outcome is the loop followed by the missing/extra checks |
| Reconciliation.EntryErrorKeepsEarlierOutputs | Scripts/phase4.py:241-251 | an entry without a checksum is an error, after the entries before it have received `output` |
| Reconciliation.EntryStepOk | Scripts/phase4.py:241-244 | every step succeeds exactly when every entry is a dict with a truthy, hashable checksum |
| Reconciliation.LoopCompletes | Scripts/phase4.py:241-251 | the loop completes exactly when the entries are well formed, and then every entry is updated |
| Reconciliation.LoopErrorsAreAboutEntries | Scripts/phase4.py:241-244 | the loop never raises the missing/extra errors |
| Reconciliation.AfterLoopErrorsReached | Scripts/phase4.py:253-268 | success, or a missing or extra error, means the loop ran over well-formed entries |
| Reconciliation.SortedSameMembers | Scripts/phase4.py:259 | sorting gives a sorted list with the same members |
| Reconciliation.StrsMembers | Scripts/phase4.py:259 | membership is kept when values become strings |
| Reconciliation.MissingReportedSorted | Scripts/phase4.py:239-260 | the missing report is sorted, lists exactly the unmatched input checksums, and is a permutation of them with repeats kept. Matched entries have already received `output` |
| Reconciliation.ReportedAreUnmatched | Scripts/phase4.py:257-260 | the sorted missing list holds exactly the input checksums that the response lacks |
| Reconciliation.NoDuplicatesMultiset | Scripts/phase4.py:253-255 | no duplicates means each element occurs at most once |
| Reconciliation.SortKeepsNoDuplicates | Scripts/phase4.py:264 | sorting keeps a list free of duplicates |
| Reconciliation.ExtraNoDuplicates | Scripts/phase4.py:253-255 | the extra checksums form a set and have no duplicates |
| Reconciliation.NothingMissing | Scripts/phase4.py:257 | nothing is missing exactly when every checksum is a string and every input checksum is in the response |
| Reconciliation.NothingExtra | Scripts/phase4.py:262 | nothing is extra exactly when every response checksum is an input checksum |
| Reconciliation.ExtraReportedSorted | Scripts/phase4.py:253-265 | the extra report comes only when nothing is missing, is sorted without duplicates, and lists exactly the response checksums that no input has |
| Reconciliation.SucceedsExactly | Scripts/phase4.py:222-268 | reconciliation succeeds exactly when the documents match, the checksums are distinct, the entries are well formed, and the input and response checksum sets are equal |
| Reconciliation.AppliedOnSuccess | Scripts/phase4.py:246-251 | with all checksums answered, each entry receives the sentence of the response item with its checksum |
| Reconciliation.SuccessAttachesSentences | Scripts/phase4.py:246-268 | on success every entry has its sentence, `output` is `{"subtitle": ...}`, and no other top-level field changes |
| Reconciliation.RequestJson.constructor | Scripts/phase4.py:222 | the request object holds the given fields |
| Reconciliation.IndexByChecksum | Scripts/phase4.py:232-236 | the loop builds the index exactly when the checksums are distinct, each checksum mapping to its sentence. Otherwise it raises the first repeated checksum |
| Reconciliation.MatchEntries | Scripts/phase4.py:238-251 | the loop updates the request's entries in place as the specification does and returns the missing list and any error |
| Reconciliation.AppendResponseJson | Scripts/phase4.py:222-268 | the request's new fields, including changes made before an error, are those of the specification. It returns the same object exactly on success, and the specified error otherwise |
| Text.ReplaceWithoutOccurrence | Scripts/phase4.py:127 | `str.replace` of a pattern that does not occur leaves the text unchanged |
| Text.ReplaceLeavesNoOccurrence | Scripts/phase5.py:117 | after replacing a pattern by a text sharing no character with it, the pattern no longer occurs |
| Text.ReplaceConcat | Scripts/phase5.py:112 | replacing in a concatenation, when no occurrence straddles the seam, replaces in each part |
| Text.ReplaceKeepsLength | Libraries/reference_data.py:62 | replacing by a text of the same length keeps the length |
| Text.ReplaceFirstOccurrence | Libraries/reference_data.py:62 | the first occurrence is replaced and the scan resumes after it |
| Text.PlaceholderSurvivesReplace | Scripts/phase5.py:461-462 | filling one key leaves another key's placeholder intact |
| Text.PlaceholderFilled | Scripts/phase5.py:461-462 | filling a key replaces its placeholder by the value |
| Text.SortStrings | Scripts/phase4.py:259 | `sorted` gives an ordered permutation of its input |
| Text.Insert | Scripts/phase4.py:259 | inserting into a sorted list keeps it sorted and adds exactly the element |
| Text.LexLeTotal | Scripts/phase4.py:259 | string order is total |
| Text.LexLeTransitive | Scripts/phase4.py:259 | string order is transitive |
| Text.LexLeAntisymmetric | Scripts/phase4.py:259 | string order is antisymmetric |
| Worksheet.TableFacts | Scripts/phase5.py:105-110 | the table has nine distinct non-ASCII keys, each mapped to ASCII text |
| Worksheet.SubstituteCases | Scripts/phase5.py:111-112 | a character is replaced by its table entry, and a character outside the table is kept |
| Worksheet.ReplaceAbsentChar | Scripts/phase5.py:112 | replacing a character that does not occur changes nothing |
| Worksheet.ReplaceStep | Scripts/phase5.py:111-112 | one pass of the loop applies one more table entry to every character |
| Worksheet.NormalizeAscii | Scripts/phase5.py:103-113 | the loop computes the character-wise substitution |
| Worksheet.NoEntriesYet | Scripts/phase5.py:111 | before the loop the string is unchanged |
| Worksheet.NormalizedHasNoMapped | Scripts/phase5.py:103-113 | no mapped character remains after normalisation |
| Worksheet.NormalizedWithoutMapped | Scripts/phase5.py:103-113 | a string without mapped characters is returned unchanged |
| Worksheet.NormalizedConcat | Scripts/phase5.py:103-113 | normalisation works character by character, so it distributes over concatenation |
| Worksheet.SentenceWithBlank | Scripts/phase5.py:115-117 | no `###` is left, and a sentence without it is unchanged |
| Worksheet.BlankReplacesMarker | Scripts/phase5.py:115-117 | the first `###` becomes `______`, the text before it is kept, and the rest is processed alike |
| Worksheet.GuessBaseForm | Scripts/phase5.py:119-133 | the base is a prefix of the stripped, lower-cased word, at most three characters shorter |
| Worksheet.GuessKeepsOtherWords | Scripts/phase5.py:126-133 | a word not ending in `ed`, or shorter than 4, is returned stripped and lower-cased |
| Worksheet.GuessShortensEdWords | Scripts/phase5.py:127-132 | an `-ed` word loses at least the `ed`, and the base is a non-empty prefix of the word without it |
| Worksheet.LowerOfLowercase | Scripts/phase5.py:126 | lower-casing a word without capitals changes nothing |
| Worksheet.StripOfTrimmed | Scripts/phase5.py:126 | stripping a word without outer spaces changes nothing |
| Worksheet.GuessBaseFormExamples | Scripts/phase5.py:122-129 | `rigged` gives `rig`, `stopped` gives `stop`, and `jumped` gives `jump` |
| Worksheet.GuessIgnoresCase | Scripts/phase5.py:126 | the guessed base form depends on the word only up to case |
| Text.LowerStripCommute | Scripts/phase5.py:126 | lower-casing and stripping commute, because no letter is whitespace |
| Text.LowerIdempotent | Scripts/phase5.py:126 | lower-casing twice is lower-casing once |
| Worksheet.MeasureBlockHeight | Scripts/phase5.py:161-166 | the height of a block is at least 24 points per question |
| Worksheet.LinesInSplit | Scripts/phase5.py:163 | the line count of a block is the sum over two adjacent blocks |
| Worksheet.HeightSplit | Scripts/phase5.py:161-166 | the height of a block is the sum of the heights of two adjacent blocks |
| Worksheet.HeightGrows | Scripts/phase5.py:161-166 | one more question adds at least 24 points, so the height grows with `end_idx` |
| Worksheet.FitOnFirstPage | Scripts/phase5.py:381-388 | the loop picks the longest prefix that fits: every shorter prefix fits, and no longer one does |
| Worksheet.BuildSectionTitle | Scripts/phase5.py:458-463 | the loop fills every `{key}` in iteration order |
| Worksheet.InterpolateWithoutPlaceholder | Scripts/phase5.py:458-463 | a template without `{` is unchanged |
| Worksheet.InterpolateKeepsUnknown | Scripts/phase5.py:458-463 | an unknown placeholder stays verbatim while the text around it is filled |
| Worksheet.InterpolateFillsKey | Scripts/phase5.py:458-463 | a known placeholder becomes its value |
| Worksheet.WithoutQrCodeMembers | Scripts/phase5.py:282-284 | the footer loops skip exactly the `qr_code` variable and keep every other one |
| Worksheet.FillFooter | Scripts/phase5.py:275-286 | an empty footer format draws nothing. Otherwise the loop fills every placeholder except `qr_code` |
| Worksheet.InterpolateSnoc | Scripts/phase5.py:282-286 | one more variable is one more replacement |
| Worksheet.FooterKeepsQrCode | Scripts/phase5.py:282-286 | a `{qr_code}` placeholder is left in the footer text |
| Worksheet.PresentationVariables | Scripts/phase5.py:471-494 | the eight variables have distinct, brace-free keys, none of which is `current_page` |
| Worksheet.SectionTitleFilled | Scripts/phase5.py:458-479 | `{section}` in the header becomes the section |
| Worksheet.WithCurrentPage | Scripts/phase5.py:391-401 | setting `current_page` adds at most one variable |
| Worksheet.CurrentPageEntries | Scripts/phase5.py:391-401 | the page is set, other variables keep their place and value, and only the page can be appended |
| Worksheet.CurrentPageOverwrites | Scripts/phase5.py:391-401 | setting the page twice is setting it once, to the later value |
| Worksheet.CurrentPageAppended | Scripts/phase5.py:391 | the first assignment appends the page after the existing variables |
| Worksheet.CurrentPageKeepsKeys | Scripts/phase5.py:391-401 | keys stay distinct and brace-free |
| Worksheet.WithoutQrCodeConcat | Scripts/phase5.py:282-284 | skipping `qr_code` distributes over concatenation |
| Worksheet.WithoutQrCodeUnchanged | Scripts/phase5.py:282-284 | variables without `qr_code` are all kept |
| Worksheet.WithoutQrCodeKeepsKeys | Scripts/phase5.py:282-284 | skipping keeps keys distinct |
| Worksheet.FooterVariables | Scripts/phase5.py:282-286 | a footer fills every variable but the QR code, then the page |
| Worksheet.FooterShowsPage | Scripts/phase5.py:282-286 | `{current_page}` in a footer becomes the page being drawn |
| Worksheet.WorksheetFooterShowsPage | Scripts/phase5.py:391-392 | on the worksheet's own variables, the footer shows the page |
| WordBank.Bump | Scripts/phase5.py:148-149 | `counter[k] += 1` raises that one count and the total by one, and keeps the counter well formed |
| WordBank.CountAtLeastItem | Scripts/phase5.py:148 | a counter item's count is at most the count of its key |
| WordBank.ItemCount | Scripts/phase5.py:148 | in a well-formed counter each item holds the positive count of its key |
| WordBank.TallyKeysDistinct | Scripts/phase5.py:141-149 | a well-formed counter has each key once |
| WordBank.CountedKeyPresent | Scripts/phase5.py:148 | a positive count comes from an item |
| WordBank.BaseTallyCounts | Scripts/phase5.py:141-148 | the base counter is well formed, sums to the number of words, and counts each base's words |
| WordBank.FormTallyCounts | Scripts/phase5.py:143-149 | the form counter of a base counts each spelling of that base as often as it occurs |
| WordBank.CountBaseOfWord | Scripts/phase5.py:147-148 | every word's base is counted |
| WordBank.CountedBaseHasWord | Scripts/phase5.py:147-148 | every counted base comes from a word |
| WordBank.BaseItemsCounted | Scripts/phase5.py:153 | every base item holds its positive word count |
| WordBank.ArgMax | Scripts/phase5.py:154 | `most_common(1)` picks the first item with the largest count |
| WordBank.FormTallyNonEmpty | Scripts/phase5.py:154 | a counted base has at least one spelling |
| WordBank.LabelIsMostCommonForm | Scripts/phase5.py:151-155 | the label is one of the words, has that base, and occurs at least as often as any other spelling of the base |
| WordBank.Labeled | Scripts/phase5.py:152-155 | one labelled pair per base |
| WordBank.InsertByLabel | Scripts/phase5.py:158 | insertion keeps the pairs sorted by lower-cased label and adds exactly the pair |
| WordBank.SortByLabel | Scripts/phase5.py:158 | the sort gives a permutation ordered by lower-cased label |
| WordBank.InsertSum | Scripts/phase5.py:158 | insertion adds the pair's count to the total |
| WordBank.SortSum | Scripts/phase5.py:158 | sorting keeps the total |
| WordBank.InsertDistinct | Scripts/phase5.py:158 | inserting a pair of a new base keeps the bases distinct |
| WordBank.SortDistinct | Scripts/phase5.py:158 | sorting keeps the bases distinct |
| WordBank.CountingStep | Scripts/phase5.py:145-148 | one more word bumps its base |
| WordBank.FormsStep | Scripts/phase5.py:145-149 | one more word bumps its spelling under its base, and every other base keeps its tally |
| WordBank.LabelingStep | Scripts/phase5.py:153-155 | one more base appends its labelled pair |
| WordBank.CountForms | Scripts/phase5.py:141-149 | the counting loop builds the base counter and every base's form counter |
| WordBank.ComputeWordCounts | Scripts/phase5.py:135-159 | the method computes the specified word bank |
| WordBank.LabeledSum | Scripts/phase5.py:151-155 | labelling keeps the counts |
| WordBank.WordCountsSum | Scripts/phase5.py:141-159 | the counts sum to the number of words |
| WordBank.WordCountsSorted | Scripts/phase5.py:158 | the word bank is sorted case-insensitively by label |
| WordBank.WordCountsStrictlySorted | Scripts/phase5.py:158 | no two labels are equal once lower-cased, so the order is strict and does not depend on the sort being stable |
| WordBank.BaseLabelsGood | Scripts/phase5.py:151-155 | each labelled pair is a most common spelling of its base, with the base's count |
| WordBank.BaseLabelsDistinct | Scripts/phase5.py:153 | the labels belong to distinct bases |
| WordBank.BaseLabelsCover | Scripts/phase5.py:145-155 | every word's base has a label |
| WordBank.WordCountsOnePerBase | Scripts/phase5.py:141-159 | there is exactly one pair per distinct base form |
| WordBank.WordCountsLabels | Scripts/phase5.py:151-159 | every label is a most common spelling of its base and carries the base's count |
| ReferenceData.DefaultTitle | Libraries/reference_data.py:62 | the fallback title has the key name's length |
| ReferenceData.DefaultTitleOfTwoWords | Libraries/reference_data.py:62-96 | `space_pirates`-style key names are shown as `Space Pirates` |
| ReferenceData.LoadCatalog | Libraries/reference_data.py:53-108 | the filter-and-append loop computes the specified catalog or error |
| ReferenceData.ErrorPersists | Libraries/reference_data.py:57-70 | an error raised on a prefix is the result of the whole loop |
| ReferenceData.NormalizeItemKeeps | Libraries/reference_data.py:57-107 | an item is kept exactly when its `key_name` is truthy. The record it becomes is well formed and keeps that `key_name` |
| ReferenceData.NormalizeKeepsKeyedItems | Libraries/reference_data.py:57-107 | the records are the items with a truthy `key_name`, in order. Each has `id == key_name`, a truthy title and, for themes, a truthy `ui_title` |
| ReferenceData.NormalizeFails | Libraries/reference_data.py:57-70 | loading fails exactly when some item fails |
| ReferenceData.ObjectIsOneElementList | Libraries/reference_data.py:53-88 | a dict payload is loaded as the list holding only it |
| ReferenceData.OtherPayloadRejected | Libraries/reference_data.py:55-90 | a payload that is neither list nor dict is rejected |
| ReferenceData.ThemeDefaults | Libraries/reference_data.py:96-105 | a bare theme gets the title-cased key as title and UI title, and empty abbreviation, class and subtitle |
| ReferenceData.SourceDatasetDefaults | Libraries/reference_data.py:62-69 | a dataset with an empty title gets the title-cased key and an empty abbreviation, and only the four catalog fields |
| ReferenceData.GivenTitlesKept | Libraries/reference_data.py:62-104 | explicit title, abbreviation and UI title are kept, and `id` is the key name |
| ReferenceData.FindLast | Libraries/reference_data.py:76-79 | the index found has a truthy `key_name` equal to the key and no later record does; none is found only when no record does |
| ReferenceData.LookupFindsLast | Libraries/reference_data.py:74-114 | a lookup returns the last record whose truthy `key_name` equals the key, or None exactly when no record has one |
| ReferenceData.FalsyKeyNameNotIndexed | Libraries/reference_data.py:76-79 | a record whose `key_name` is `""` is not found even under the key `""` |
| ReferenceData.LastDuplicateWins | Libraries/reference_data.py:76-79 | of two records with the same key name, the second is returned |

## Left out

- File, stdin and stdout I/O, argparse and configuration loading. The loaders and lookups start from the parsed JSON value, and the cache lookup starts from a map of paths to file outcomes.
- The sentence generator call and its response parsing (`call_openai`). The response is only the record `{subtitle, doc_checksum, data: [{checksum, sentence}]}`.
- `build_model_input`, `load_theme_content` and all output serialisation: they depend on `json.dumps` formatting.
- PDF drawing, `wrap_text` and font metrics, the QR code drawing and float layout. A question's wrapped lines arrive as a sequence, and the height left on page 1 as an integer.
- The seeded shuffle of the questions: the word bank is modelled for any order of words.
- SHA-256 internals: `sha` is any function returning 64 lower-case hex digits.
- Python `str` of lists, dicts and the QR drawing: a parameter `containerStr`, or a given string for the presentation variables.
- Non-ASCII case mapping in `lower` and `title`: only the ASCII letters change case, and only they count as letters for `title`. `strip` is not affected: `Text.IsSpace` is Python's full `str.isspace` set, Unicode whitespace included.
- Floats in JSON values.
- `app.py`, which holds routes and a static configuration.
- Worksheet-id encoding and cache writes do not appear in these sources.
- WordBank.ComputeWordCounts: the words arrive as a sequence of strings, so the `KeyError` on a question without `word` is not modelled. The renderer always builds questions with a string `word`.
- Worksheet.MeasureBlockHeight: requires `0 <= start` and `end <= len`, because Python's negative indices are not modelled. The fit loop only calls it within range.
- Worksheet.PresentationVariables: the values are given already printed, and `str(None)` for a missing `worksheet_id` is the caller's string.
- CacheLookup.LookupCachedPayload: the store is keyed by pathlib path values, so `..` parts and symbolic links are not resolved: two different path values that name one file on disk are two keys.
- Reconciliation.MatchEntries: each entry is a value inside the request object's `data`, so aliasing between the entry dicts and other references to them is not modelled.
- These divergences are reproduced as written, not corrected:
  - `doc_key` leaves out the section, while the cache path includes it (`DocKeyIgnoresSection`, `SectionSeparatesCachePaths`).
  - A seed whose `str` starts with `/` makes pathlib drop the datastore and every other segment, so requests that differ only in section share one cache file (`AbsoluteSeedOverridesPath`).
  - `main` selects the section by the top-level `section`, while `build_output` prefers `metadata.section` (`BuildRequest`, `SectionNumberSource`).
  - A falsy `reading_level` reads unbound variables, modelled as the `UnboundLevel` error.
  - Every grade other than the integers 1 and 2 gets `th` (`GradeThree`, `GradeStringTwo`).
