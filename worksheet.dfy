/**
 * Phase 5: the text helpers of the worksheet renderer. Punctuation is
 * normalised to ASCII, the `###` marker becomes a visible blank, words are
 * grouped by a guessed base form (see the WordBank module), question blocks
 * are measured to decide how many fit on the first page, and `{name}`
 * placeholders in the header and footer templates are filled in.
 *
 * Drawing, font metrics and word wrapping are not modelled: a question's
 * wrapped lines arrive as a sequence of lines, and the height left on the
 * first page arrives as a number.
 */
module Worksheet {
  import opened Results
  import opened Text

  const TextSize: int := 12
  /** `LINE_HEIGHT`: the text size plus 6 points. */
  const LineHeight: int := TextSize + 6
  /** `BASE_GAP_BETWEEN_PROBLEMS` */
  const BaseGapBetweenProblems: int := 24
  /** `BLANK`: what is drawn for the missing word. */
  const Blank: string := "______"
  /** The marker the generator leaves where the word goes. */
  const BlankMarker: string := "###"

  // ---------------------------------------------------------------------------
  // normalize_ascii
  // ---------------------------------------------------------------------------

  /**
   * The replacement table, in the dictionary's iteration order. The literal
   * repeats some keys; a dictionary keeps one entry per key, at the position
   * of its first appearance, so nine entries remain.
   */
  const AsciiReplacements: seq<(char, string)> := [
    ('\U{2018}', "'"), ('\U{2019}', "'"), ('\U{201C}', "\""), ('\U{201D}', "\""),
    ('\U{2013}', "-"), ('\U{2014}', "-"), ('\U{2026}', "..."), ('\U{2022}', "-"),
    ('\U{00B7}', "-")
  ]

  /** A character that the table replaces. */
  predicate Mapped(c: char) {
    exists i :: 0 <= i < |AsciiReplacements| && AsciiReplacements[i].0 == c
  }

  /** The table's keys are distinct, none is ASCII, and every replacement is ASCII. */
  lemma TableFacts()
    ensures forall i, j :: 0 <= i < j < |AsciiReplacements| ==> AsciiReplacements[i].0 != AsciiReplacements[j].0
    ensures forall i :: 0 <= i < |AsciiReplacements| ==> AsciiReplacements[i].0 >= '\U{0080}'
    ensures forall i, c :: 0 <= i < |AsciiReplacements| && c in AsciiReplacements[i].1 ==> c < '\U{0080}'
  {
  }

  /** What the first `j` entries of the table make of one character. */
  function SubstituteUpTo(c: char, j: nat): string
    requires j <= |AsciiReplacements|
  {
    if j == 0 then [c]
    else if AsciiReplacements[j - 1].0 == c then AsciiReplacements[j - 1].1
    else SubstituteUpTo(c, j - 1)
  }

  /** What the first `j` entries of the table make of a string, character by character. */
  function SubstitutedUpTo(s: string, j: nat): string
    requires j <= |AsciiReplacements|
  {
    if s == [] then [] else SubstituteUpTo(s[0], j) + SubstitutedUpTo(s[1..], j)
  }

  /**
   * The meaning of `normalize_ascii`: every mapped character is replaced by
   * its ASCII spelling, and every other character is kept.
   */
  function Normalized(s: string): string {
    SubstitutedUpTo(s, |AsciiReplacements|)
  }

  lemma {:induction false} SubstituteCases(c: char, j: nat)
    requires j <= |AsciiReplacements|
    ensures (forall i :: 0 <= i < j ==> AsciiReplacements[i].0 != c) ==> SubstituteUpTo(c, j) == [c]
    ensures forall i :: 0 <= i < j && AsciiReplacements[i].0 == c ==> SubstituteUpTo(c, j) == AsciiReplacements[i].1
  {
    TableFacts();
    if j > 0 {
      SubstituteCases(c, j - 1);
    }
  }

  /** A string without the character `k` is left alone by `replace(k, …)`. */
  lemma ReplaceAbsentChar(t: string, k: char, v: string)
    requires k !in t
    ensures Replace(t, [k], v) == t
  {
    FreeOfHead(t, [], [k]);
    ReplaceWithoutOccurrence(t, [k], v);
  }

  /** One more `replace` of the loop takes one more table entry into account. */
  lemma {:induction false} ReplaceStep(s: string, j: nat)
    requires j < |AsciiReplacements|
    ensures Replace(SubstitutedUpTo(s, j), [AsciiReplacements[j].0], AsciiReplacements[j].1)
         == SubstitutedUpTo(s, j + 1)
  {
    var (k, v) := AsciiReplacements[j];
    if s != [] {
      var head := SubstituteUpTo(s[0], j);
      ReplaceConcat(head, SubstitutedUpTo(s[1..], j), [k], v);
      ReplaceStep(s[1..], j);
      TableFacts();
      SubstituteCases(s[0], j);
      SubstituteCases(s[0], j + 1);
      if k == s[0] {
        assert head == [k];
        assert Replace(head, [k], v) == v + Replace([], [k], v);
      } else if forall i :: 0 <= i < j ==> AsciiReplacements[i].0 != s[0] {
        ReplaceAbsentChar(head, k, v);
      } else {
        var i :| 0 <= i < j && AsciiReplacements[i].0 == s[0];
        assert forall c :: c in head ==> c < '\U{0080}';
        ReplaceAbsentChar(head, k, v);
      }
    }
  }

  /** `normalize_ascii(s)`: one `replace` per table entry, in table order. */
  method NormalizeAscii(s: string) returns (r: string)
    ensures r == Normalized(s)
  {
    r := s;
    NoEntriesYet(s);
    for j := 0 to |AsciiReplacements|
      invariant r == SubstitutedUpTo(s, j)
    {
      ReplaceStep(s, j);
      r := Replace(r, [AsciiReplacements[j].0], AsciiReplacements[j].1);
    }
  }

  lemma {:induction false} NoEntriesYet(s: string)
    ensures SubstitutedUpTo(s, 0) == s
  {
    if s != [] {
      NoEntriesYet(s[1..]);
    }
  }

  /** No mapped character is left after normalisation. */
  lemma {:induction false} NormalizedHasNoMapped(s: string)
    ensures forall c :: c in Normalized(s) ==> !Mapped(c)
  {
    TableFacts();
    if s != [] {
      NormalizedHasNoMapped(s[1..]);
      var n := |AsciiReplacements|;
      SubstituteCases(s[0], n);
      assert Normalized(s) == SubstituteUpTo(s[0], n) + Normalized(s[1..]);
      forall c | c in SubstituteUpTo(s[0], n) ensures !Mapped(c) {
        if forall i :: 0 <= i < n ==> AsciiReplacements[i].0 != s[0] {
          assert c == s[0];
        } else {
          var i :| 0 <= i < n && AsciiReplacements[i].0 == s[0];
          assert c in AsciiReplacements[i].1;
        }
      }
    }
  }

  /** A string without mapped characters comes back unchanged. */
  lemma {:induction false} NormalizedWithoutMapped(s: string)
    requires forall c :: c in s ==> !Mapped(c)
    ensures Normalized(s) == s
  {
    if s != [] {
      assert s[0] in s && !Mapped(s[0]);
      SubstituteCases(s[0], |AsciiReplacements|);
      NormalizedWithoutMapped(s[1..]);
      assert s == [s[0]] + s[1..];
    }
  }

  /** Normalisation works character by character, so it splits over concatenation. */
  lemma {:induction false} NormalizedConcat(a: string, b: string)
    ensures Normalized(a + b) == Normalized(a) + Normalized(b)
  {
    if a != [] {
      assert (a + b)[1..] == a[1..] + b;
      NormalizedConcat(a[1..], b);
    } else {
      assert a + b == b;
    }
  }

  // ---------------------------------------------------------------------------
  // sentence_with_blank
  // ---------------------------------------------------------------------------

  /** `sentence_with_blank(s)`: every `###` becomes the blank. */
  function SentenceWithBlank(s: string): (r: string)
    ensures !Occurs(r, BlankMarker)
    ensures !Occurs(s, BlankMarker) ==> r == s
  {
    ReplaceLeavesNoOccurrence(s, BlankMarker, Blank);
    var r := Replace(s, BlankMarker, Blank);
    if Occurs(s, BlankMarker) then r
    else
      ReplaceWithoutOccurrence(s, BlankMarker, Blank);
      r
  }

  /** The text before the first marker is kept, the marker becomes the blank, and the rest is handled alike. */
  lemma BlankReplacesMarker(a: string, b: string)
    requires '#' !in a
    ensures SentenceWithBlank(a + BlankMarker + b) == a + Blank + SentenceWithBlank(b)
  {
    ReplaceFirstOccurrence(a, b, BlankMarker, Blank);
  }

  // ---------------------------------------------------------------------------
  // guess_base_form
  // ---------------------------------------------------------------------------

  predicate EndsWithEd(w: string) {
    |w| >= 2 && w[|w| - 2..] == "ed"
  }

  /**
   * `guess_base_form(word)`: strip and lower-case the word; a word of four or
   * more characters ending in "ed" loses the "ed", and then one more character
   * when its last two are equal.
   */
  function GuessBaseForm(word: string): (r: string)
    ensures r <= Lower(Strip(word))
    ensures |Lower(Strip(word))| - 3 <= |r|
  {
    var w := Lower(Strip(word));
    if EndsWithEd(w) && |w| >= 4 then
      var base := w[..|w| - 2];
      if |base| >= 2 && base[|base| - 1] == base[|base| - 2] then base[..|base| - 1] else base
    else
      w
  }

  /** The guess depends on the word only up to case. */
  lemma GuessIgnoresCase(word: string)
    ensures GuessBaseForm(Lower(word)) == GuessBaseForm(word)
  {
    LowerStripCommute(word);
    LowerIdempotent(Strip(word));
  }

  /** A stripped, lower-cased word that does not end in "ed", or is shorter than four, is the base form. */
  lemma GuessKeepsOtherWords(word: string)
    requires !EndsWithEd(Lower(Strip(word))) || |Lower(Strip(word))| < 4
    ensures GuessBaseForm(word) == Lower(Strip(word))
  {
  }

  /** In the "ed" branch the base is at least two characters shorter, and never empty. */
  lemma GuessShortensEdWords(word: string)
    requires EndsWithEd(Lower(Strip(word))) && |Lower(Strip(word))| >= 4
    ensures 1 <= |GuessBaseForm(word)| <= |Lower(Strip(word))| - 2
    ensures GuessBaseForm(word) <= Lower(Strip(word))[..|Lower(Strip(word))| - 2]
  {
  }

  lemma LowerOfLowercase(s: string)
    requires forall c :: c in s ==> !IsAsciiUpper(c)
    ensures Lower(s) == s
  {
  }

  lemma StripOfTrimmed(s: string)
    requires |s| > 0 && !IsSpace(s[0]) && !IsSpace(s[|s| - 1])
    ensures Strip(s) == s
  {
  }

  /** The documented examples: "rigged" and "stopped" lose "ed" and the doubled consonant; "jumped" only the "ed". */
  lemma GuessBaseFormExamples()
    ensures GuessBaseForm("rigged") == "rig"
    ensures GuessBaseForm("stopped") == "stop"
    ensures GuessBaseForm("jumped") == "jump"
  {
    StripOfTrimmed("rigged");
    LowerOfLowercase("rigged");
    StripOfTrimmed("stopped");
    LowerOfLowercase("stopped");
    StripOfTrimmed("jumped");
    LowerOfLowercase("jumped");
  }

  // ---------------------------------------------------------------------------
  // measure_block_height and the page-1 fit loop
  // ---------------------------------------------------------------------------

  /** The number of wrapped lines of the questions `start` up to (not including) `end`. */
  function LinesIn(wrapped: seq<seq<string>>, start: int, end: int): nat
    requires 0 <= start && end <= |wrapped|
    decreases end - start
  {
    if start >= end then 0 else |wrapped[start]| + LinesIn(wrapped, start + 1, end)
  }

  /**
   * `measure_block_height(wrapped, start, end)`. The source indexes the list
   * from `start` to `end`, so callers keep to its bounds; with `start > end`
   * the range is empty and the item count negative, as in the source.
   */
  function MeasureBlockHeight(wrapped: seq<seq<string>>, start: int, end: int): (h: int)
    requires 0 <= start && end <= |wrapped|
    ensures start <= end ==> h >= BaseGapBetweenProblems * (end - start)
  {
    LinesIn(wrapped, start, end) * LineHeight + (end - start) * BaseGapBetweenProblems
  }

  lemma {:induction false} LinesInSplit(wrapped: seq<seq<string>>, start: int, mid: int, end: int)
    requires 0 <= start <= mid <= end <= |wrapped|
    ensures LinesIn(wrapped, start, end) == LinesIn(wrapped, start, mid) + LinesIn(wrapped, mid, end)
    decreases mid - start
  {
    if start < mid {
      LinesInSplit(wrapped, start + 1, mid, end);
    }
  }

  /** Heights of consecutive blocks add up. */
  lemma HeightSplit(wrapped: seq<seq<string>>, start: int, mid: int, end: int)
    requires 0 <= start <= mid <= end <= |wrapped|
    ensures MeasureBlockHeight(wrapped, start, end)
         == MeasureBlockHeight(wrapped, start, mid) + MeasureBlockHeight(wrapped, mid, end)
  {
    LinesInSplit(wrapped, start, mid, end);
  }

  /** Each further question adds at least the gap: the height strictly grows with `end`. */
  lemma HeightGrows(wrapped: seq<seq<string>>, start: int, e1: int, e2: int)
    requires 0 <= start <= e1 < e2 <= |wrapped|
    ensures MeasureBlockHeight(wrapped, start, e1) + BaseGapBetweenProblems <= MeasureBlockHeight(wrapped, start, e2)
  {
    HeightSplit(wrapped, start, e1, e2);
  }

  /**
   * The page-1 loop: the number of questions drawn on the first page. It is
   * the longest prefix whose block fits in `available`.
   */
  method FitOnFirstPage(wrapped: seq<seq<string>>, available: int) returns (end: nat)
    ensures end <= |wrapped|
    ensures forall k :: 0 < k <= end ==> MeasureBlockHeight(wrapped, 0, k) <= available
    ensures forall k :: end < k <= |wrapped| ==> MeasureBlockHeight(wrapped, 0, k) > available
  {
    end := 0;
    for i := 1 to |wrapped| + 1
      invariant end == i - 1
      invariant forall k :: 0 < k <= end ==> MeasureBlockHeight(wrapped, 0, k) <= available
    {
      var needed := MeasureBlockHeight(wrapped, 0, i);
      if needed <= available {
        end := i;
      } else {
        forall k | i < k <= |wrapped| ensures MeasureBlockHeight(wrapped, 0, k) > available {
          HeightGrows(wrapped, 0, i, k);
        }
        break;
      }
    }
  }

  // ---------------------------------------------------------------------------
  // build_section_title and the footer loops
  // ---------------------------------------------------------------------------

  /**
   * The items of a `presentation_variables` dictionary in iteration order, each
   * value already passed through `str` (one of its values is a drawing, whose
   * `str` this model does not describe).
   */
  type Vars = seq<(string, string)>

  predicate DistinctKeys(vars: Vars) {
    forall i, j :: 0 <= i < j < |vars| ==> vars[i].0 != vars[j].0
  }

  predicate BraceFreeKeys(vars: Vars) {
    forall i :: 0 <= i < |vars| ==> BraceFree(vars[i].0)
  }

  /** Every `{key}` replaced by its value, one key after another in iteration order. */
  function Interpolate(template: string, vars: Vars): string
    decreases |vars|
  {
    if vars == [] then template
    else Interpolate(Replace(template, Placeholder(vars[0].0), vars[0].1), vars[1..])
  }

  /** `build_section_title(header_format, presentation_variables)` */
  method BuildSectionTitle(headerFormat: string, vars: Vars) returns (r: string)
    ensures r == Interpolate(headerFormat, vars)
  {
    r := headerFormat;
    for i := 0 to |vars|
      invariant Interpolate(r, vars[i..]) == Interpolate(headerFormat, vars)
    {
      assert vars[i..][1..] == vars[i + 1..];
      r := Replace(r, Placeholder(vars[i].0), vars[i].1);
    }
    assert vars[|vars|..] == [];
  }

  /** A template without `{` has no placeholder and comes back unchanged. */
  lemma {:induction false} InterpolateWithoutPlaceholder(template: string, vars: Vars)
    requires '{' !in template
    ensures Interpolate(template, vars) == template
    decreases |vars|
  {
    if vars != [] {
      FreeOfHead(template, [], Placeholder(vars[0].0));
      ReplaceWithoutOccurrence(template, Placeholder(vars[0].0), vars[0].1);
      InterpolateWithoutPlaceholder(template, vars[1..]);
    }
  }

  /**
   * A placeholder whose name is not a key stays verbatim, and the text on
   * either side of it is filled in on its own.
   */
  lemma {:induction false} InterpolateKeepsUnknown(a: string, b: string, u: string, vars: Vars)
    requires BraceFree(u) && BraceFreeKeys(vars)
    requires forall i :: 0 <= i < |vars| ==> vars[i].0 != u
    ensures Interpolate(a + Placeholder(u) + b, vars)
         == Interpolate(a, vars) + Placeholder(u) + Interpolate(b, vars)
    decreases |vars|
  {
    if vars != [] {
      var (k, v) := vars[0];
      PlaceholderSurvivesReplace(a, b, u, k, v);
      InterpolateKeepsUnknown(Replace(a, Placeholder(k), v), Replace(b, Placeholder(k), v), u, vars[1..]);
    }
  }

  /**
   * A template that is plain text around one `{key}` of the variables comes
   * out with the placeholder replaced by that key's value.
   */
  lemma {:induction false} InterpolateFillsKey(a: string, b: string, vars: Vars, i: nat)
    requires i < |vars| && DistinctKeys(vars) && BraceFreeKeys(vars)
    requires '{' !in a && '{' !in b && '{' !in vars[i].1
    ensures Interpolate(a + Placeholder(vars[i].0) + b, vars) == a + vars[i].1 + b
    decreases i
  {
    var (k, v) := vars[0];
    var t := a + Placeholder(vars[i].0) + b;
    if i == 0 {
      PlaceholderFilled(a, b, k, v);
      FreeOfHead(a, [], Placeholder(k));
      ReplaceWithoutOccurrence(a, Placeholder(k), v);
      FreeOfHead(b, [], Placeholder(k));
      ReplaceWithoutOccurrence(b, Placeholder(k), v);
      InterpolateWithoutPlaceholder(a + v + b, vars[1..]);
    } else {
      PlaceholderSurvivesReplace(a, b, vars[i].0, k, v);
      FreeOfHead(a, [], Placeholder(k));
      ReplaceWithoutOccurrence(a, Placeholder(k), v);
      FreeOfHead(b, [], Placeholder(k));
      ReplaceWithoutOccurrence(b, Placeholder(k), v);
      assert vars[1..][i - 1] == vars[i];
      InterpolateFillsKey(a, b, vars[1..], i - 1);
    }
  }

  /** The variables without the `qr_code` entry, which the footer loops skip. */
  function WithoutQrCode(vars: Vars): Vars {
    if vars == [] then []
    else if vars[0].0 == "qr_code" then WithoutQrCode(vars[1..])
    else [vars[0]] + WithoutQrCode(vars[1..])
  }

  /** The footer variables are exactly the variables whose key is not `qr_code`. */
  lemma {:induction false} WithoutQrCodeMembers(vars: Vars)
    ensures forall i :: 0 <= i < |WithoutQrCode(vars)| ==>
              WithoutQrCode(vars)[i].0 != "qr_code" && WithoutQrCode(vars)[i] in vars
    ensures forall i :: 0 <= i < |vars| && vars[i].0 != "qr_code" ==> vars[i] in WithoutQrCode(vars)
    decreases |vars|
  {
    if vars != [] {
      WithoutQrCodeMembers(vars[1..]);
      assert forall i :: 0 < i < |vars| ==> vars[i] == vars[1..][i - 1];
    }
  }

  /** The footer text drawn, or `None` when the footer format is empty and nothing is drawn. */
  function FooterText(format: string, vars: Vars): Option<string> {
    if format == "" then None else Some(Interpolate(format, WithoutQrCode(vars)))
  }

  /** The substitution loop of `draw_questions_footer` and `draw_answers_footer`. */
  method FillFooter(format: string, vars: Vars) returns (r: Option<string>)
    ensures r == FooterText(format, vars)
  {
    if format == "" {
      return None;
    }
    var text := format;
    ghost var kept: Vars := [];
    for i := 0 to |vars|
      invariant kept + WithoutQrCode(vars[i..]) == WithoutQrCode(vars)
      invariant text == Interpolate(format, kept)
    {
      assert vars[i..][1..] == vars[i + 1..];
      if vars[i].0 == "qr_code" {
        continue;
      }
      InterpolateSnoc(format, kept, vars[i]);
      text := Replace(text, Placeholder(vars[i].0), vars[i].1);
      kept := kept + [vars[i]];
    }
    assert vars[|vars|..] == [];
    assert WithoutQrCode(vars[|vars|..]) == [];
    assert kept == WithoutQrCode(vars);
    r := Some(text);
  }

  lemma {:induction false} InterpolateSnoc(template: string, vars: Vars, kv: (string, string))
    ensures Interpolate(template, vars + [kv])
         == Replace(Interpolate(template, vars), Placeholder(kv.0), kv.1)
    decreases |vars|
  {
    if vars == [] {
      assert [kv][1..] == [];
    } else {
      assert (vars + [kv])[1..] == vars[1..] + [kv];
      InterpolateSnoc(Replace(template, Placeholder(vars[0].0), vars[0].1), vars[1..], kv);
    }
  }

  /** The footers leave a `{qr_code}` placeholder in place; the QR code is drawn beside the text instead. */
  lemma FooterKeepsQrCode(a: string, b: string, vars: Vars)
    requires BraceFreeKeys(vars)
    ensures FooterText(a + Placeholder("qr_code") + b, vars)
         == Some(Interpolate(a, WithoutQrCode(vars)) + Placeholder("qr_code") + Interpolate(b, WithoutQrCode(vars)))
  {
    var kept := WithoutQrCode(vars);
    WithoutQrCodeMembers(vars);
    forall i | 0 <= i < |kept| ensures BraceFree(kept[i].0) {
      var j :| 0 <= j < |vars| && vars[j] == kept[i];
    }
    InterpolateKeepsUnknown(a, b, "qr_code", kept);
  }

  /**
   * The variables `build_pdf` sets up, in its insertion order, with their
   * values already printed.
   */
  function PresentationVariables(
    section: string, system: string, level: string, model: string, seed: string,
    worksheetId: string, qrCode: string
  ): (r: Vars)
    ensures DistinctKeys(r) && BraceFreeKeys(r)
    ensures forall i :: 0 <= i < |r| ==> r[i].0 != "current_page"
  {
    [("section", section), ("reading_system", system), ("reading_level", level), ("model", model),
     ("seed", seed), ("worksheet_id", worksheetId), ("total_pages", "2"), ("qr_code", qrCode)]
  }

  /** A header such as "Section {section}" gets the section filled in. */
  lemma SectionTitleFilled(
    a: string, b: string, section: string, system: string, level: string, model: string, seed: string,
    worksheetId: string, qrCode: string
  )
    requires '{' !in a && '{' !in b && '{' !in section
    ensures Interpolate(a + Placeholder("section") + b,
                        PresentationVariables(section, system, level, model, seed, worksheetId, qrCode))
         == a + section + b
  {
    InterpolateFillsKey(a, b, PresentationVariables(section, system, level, model, seed, worksheetId, qrCode), 0);
  }

  /**
   * `presentation_variables["current_page"] = page`, set before each footer
   * is drawn: the first assignment adds the key at the end, a later one
   * updates the value where the key already is.
   */
  function WithCurrentPage(vars: Vars, page: string): (r: Vars)
    ensures |vars| <= |r| <= |vars| + 1
  {
    if vars == [] then [("current_page", page)]
    else if vars[0].0 == "current_page" then [("current_page", page)] + vars[1..]
    else [vars[0]] + WithCurrentPage(vars[1..], page)
  }

  /** The page is among the variables afterwards, and every other variable keeps its place and value. */
  lemma {:induction false} CurrentPageEntries(vars: Vars, page: string)
    ensures var r := WithCurrentPage(vars, page);
            && ("current_page", page) in r
            && (forall i :: 0 <= i < |vars| && vars[i].0 != "current_page" ==> r[i] == vars[i])
            && (forall i :: 0 <= i < |r| && r[i].0 != "current_page" ==> i < |vars| && r[i] == vars[i])
            && (forall i :: |vars| <= i < |r| ==> r[i] == ("current_page", page))
    decreases |vars|
  {
    if vars != [] && vars[0].0 != "current_page" {
      CurrentPageEntries(vars[1..], page);
    }
  }

  /** Setting the page again leaves the same variables as setting it once. */
  lemma {:induction false} CurrentPageOverwrites(vars: Vars, p: string, q: string)
    ensures WithCurrentPage(WithCurrentPage(vars, p), q) == WithCurrentPage(vars, q)
    decreases |vars|
  {
    if vars != [] && vars[0].0 != "current_page" {
      CurrentPageOverwrites(vars[1..], p, q);
    }
  }

  /** Variables without a page get it appended. */
  lemma {:induction false} CurrentPageAppended(vars: Vars, page: string)
    requires forall i :: 0 <= i < |vars| ==> vars[i].0 != "current_page"
    ensures WithCurrentPage(vars, page) == vars + [("current_page", page)]
    decreases |vars|
  {
    if vars != [] {
      CurrentPageAppended(vars[1..], page);
      assert [vars[0]] + (vars[1..] + [("current_page", page)]) == vars + [("current_page", page)];
    }
  }

  /** Setting the page keeps the keys distinct and free of braces. */
  lemma {:induction false} CurrentPageKeepsKeys(vars: Vars, page: string)
    requires DistinctKeys(vars) && BraceFreeKeys(vars)
    ensures DistinctKeys(WithCurrentPage(vars, page)) && BraceFreeKeys(WithCurrentPage(vars, page))
    decreases |vars|
  {
    var r := WithCurrentPage(vars, page);
    if vars == [] {
    } else if vars[0].0 == "current_page" {
      assert r == [("current_page", page)] + vars[1..];
      assert forall i :: 0 < i < |r| ==> r[i] == vars[i];
    } else {
      CurrentPageKeepsKeys(vars[1..], page);
      CurrentPageEntries(vars[1..], page);
      var t := WithCurrentPage(vars[1..], page);
      assert r == [vars[0]] + t;
      forall j | 0 < j < |r| ensures r[j].0 != vars[0].0 {
        assert r[j] == t[j - 1];
      }
    }
  }

  lemma {:induction false} WithoutQrCodeConcat(x: Vars, y: Vars)
    ensures WithoutQrCode(x + y) == WithoutQrCode(x) + WithoutQrCode(y)
    decreases |x|
  {
    if x == [] {
      assert x + y == y;
    } else {
      assert (x + y)[0] == x[0] && (x + y)[1..] == x[1..] + y;
      WithoutQrCodeConcat(x[1..], y);
    }
  }

  lemma {:induction false} WithoutQrCodeUnchanged(x: Vars)
    requires forall i :: 0 <= i < |x| ==> x[i].0 != "qr_code"
    ensures WithoutQrCode(x) == x
    decreases |x|
  {
    if x != [] {
      WithoutQrCodeUnchanged(x[1..]);
    }
  }

  /** Dropping the QR code keeps the keys distinct. */
  lemma {:induction false} WithoutQrCodeKeepsKeys(vars: Vars)
    requires DistinctKeys(vars)
    ensures DistinctKeys(WithoutQrCode(vars))
    decreases |vars|
  {
    if vars != [] {
      WithoutQrCodeKeepsKeys(vars[1..]);
      WithoutQrCodeMembers(vars[1..]);
      var rest := WithoutQrCode(vars[1..]);
      forall i | 0 <= i < |rest| ensures rest[i].0 != vars[0].0 {
        var j :| 0 <= j < |vars[1..]| && vars[1..][j] == rest[i];
        assert vars[j + 1] == rest[i];
      }
    }
  }

  /** The variables a footer fills in once the page is set: all but the QR code, then the page. */
  lemma FooterVariables(vars: Vars, page: string)
    requires DistinctKeys(vars) && BraceFreeKeys(vars)
    requires forall i :: 0 <= i < |vars| ==> vars[i].0 != "current_page"
    ensures WithoutQrCode(WithCurrentPage(vars, page)) == WithoutQrCode(vars) + [("current_page", page)]
    ensures DistinctKeys(WithoutQrCode(vars) + [("current_page", page)])
    ensures BraceFreeKeys(WithoutQrCode(vars) + [("current_page", page)])
  {
    var cp := ("current_page", page);
    var others := WithoutQrCode(vars);
    assert WithoutQrCode(WithCurrentPage(vars, page)) == others + [cp] by {
      CurrentPageAppended(vars, page);
      WithoutQrCodeConcat(vars, [cp]);
      assert WithoutQrCode([cp]) == [cp];
    }
    assert DistinctKeys(others) by {
      WithoutQrCodeKeepsKeys(vars);
    }
    WithoutQrCodeMembers(vars);
    forall i | 0 <= i < |others| ensures others[i].0 != "current_page" && BraceFree(others[i].0) {
      var j :| 0 <= j < |vars| && vars[j] == others[i];
    }
  }

  /**
   * A footer such as "Page {current_page} of {total_pages}" shows the page
   * being drawn, whatever other variables there are.
   */
  lemma FooterShowsPage(a: string, b: string, vars: Vars, page: string)
    requires DistinctKeys(vars) && BraceFreeKeys(vars)
    requires forall i :: 0 <= i < |vars| ==> vars[i].0 != "current_page"
    requires '{' !in a && '{' !in b && '{' !in page
    ensures FooterText(a + Placeholder("current_page") + b, WithCurrentPage(vars, page)) == Some(a + page + b)
  {
    FooterVariables(vars, page);
    InterpolateFillsKey(a, b, WithoutQrCode(vars) + [("current_page", page)], |WithoutQrCode(vars)|);
  }

  /** On the worksheet: the variables of `build_pdf` with the page set. */
  lemma WorksheetFooterShowsPage(
    a: string, b: string, section: string, system: string, level: string, model: string, seed: string,
    worksheetId: string, qrCode: string, page: string
  )
    requires '{' !in a && '{' !in b && '{' !in page
    ensures FooterText(a + Placeholder("current_page") + b,
                       WithCurrentPage(PresentationVariables(section, system, level, model, seed, worksheetId, qrCode), page))
         == Some(a + page + b)
  {
    FooterShowsPage(a, b, PresentationVariables(section, system, level, model, seed, worksheetId, qrCode), page);
  }
}
