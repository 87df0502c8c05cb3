/**
 * Phase 5: the word bank. `compute_word_counts` groups the questions' words by
 * their guessed base form, counts each group, labels it with its most common
 * spelling and sorts the labels case-insensitively.
 *
 * A `Counter` is modelled as its items in insertion order. The input is the
 * `word` of each question, in question order; every question the renderer
 * builds has a string `word`.
 */
module WordBank {
  import opened Text
  import opened Worksheet

  /** A `Counter`: its (key, count) items in insertion order. */
  type Tally = seq<(string, nat)>

  /** `counter[k]` */
  function CountOf(t: Tally, k: string): nat {
    if t == [] then 0 else (if t[0].0 == k then t[0].1 else 0) + CountOf(t[1..], k)
  }

  predicate HasKey(t: Tally, k: string) {
    exists i :: 0 <= i < |t| && t[i].0 == k
  }

  /** What every tally built by `+= 1` looks like: each key once, with a positive count. */
  predicate WellFormed(t: Tally) {
    t == [] || (t[0].1 > 0 && CountOf(t[1..], t[0].0) == 0 && WellFormed(t[1..]))
  }

  /** The sum of the counts. */
  function Sum(t: Tally): nat {
    if t == [] then 0 else t[0].1 + Sum(t[1..])
  }

  /** `counter[k] += 1`: the count of `k` goes up by one, a new key goes at the end. */
  function Bump(t: Tally, k: string): (r: Tally)
    ensures forall k' :: CountOf(r, k') == CountOf(t, k') + (if k' == k then 1 else 0)
    ensures Sum(r) == Sum(t) + 1
    ensures WellFormed(t) ==> WellFormed(r)
  {
    if t == [] then [(k, 1)]
    else if t[0].0 == k then
      var r := [(k, t[0].1 + 1)] + t[1..];
      assert r[1..] == t[1..];
      r
    else
      var r := [t[0]] + Bump(t[1..], k);
      assert r[1..] == Bump(t[1..], k);
      r
  }

  lemma {:induction false} CountAtLeastItem(t: Tally, i: nat)
    requires i < |t|
    ensures CountOf(t, t[i].0) >= t[i].1
  {
    if i > 0 {
      CountAtLeastItem(t[1..], i - 1);
    }
  }

  /** In a well-formed tally an item's count is the count of its key, and positive. */
  lemma {:induction false} ItemCount(t: Tally, i: nat)
    requires WellFormed(t) && i < |t|
    ensures CountOf(t, t[i].0) == t[i].1 > 0
  {
    if i > 0 {
      ItemCount(t[1..], i - 1);
      assert t[1..][i - 1] == t[i];
    }
  }

  /** A well-formed tally has each key once. */
  lemma {:induction false} TallyKeysDistinct(t: Tally, i: nat, j: nat)
    requires WellFormed(t) && i < j < |t|
    ensures t[i].0 != t[j].0
  {
    ItemCount(t[1..], j - 1);
    assert t[1..][j - 1] == t[j];
    if i > 0 {
      TallyKeysDistinct(t[1..], i - 1, j - 1);
    }
  }

  /** A key with a positive count is an item of the tally. */
  lemma {:induction false} CountedKeyPresent(t: Tally, k: string)
    requires CountOf(t, k) > 0
    ensures HasKey(t, k)
  {
    if t[0].0 != k {
      CountedKeyPresent(t[1..], k);
      var i :| 0 <= i < |t[1..]| && t[1..][i].0 == k;
      assert t[i + 1].0 == k;
    }
  }

  // ---------------------------------------------------------------------------
  // The counting loop
  // ---------------------------------------------------------------------------

  /** The number of words whose base form is `b`. */
  function CountBase(words: seq<string>, b: string): nat {
    if words == [] then 0
    else CountBase(words[..|words| - 1], b) + (if GuessBaseForm(words[|words| - 1]) == b then 1 else 0)
  }

  /** `base_counts` after the first loop has seen `words`. */
  function BaseTally(words: seq<string>): Tally {
    if words == [] then []
    else Bump(BaseTally(words[..|words| - 1]), GuessBaseForm(words[|words| - 1]))
  }

  /** `forms_for_base[b]` after the first loop has seen `words`. */
  function FormTally(words: seq<string>, b: string): Tally {
    if words == [] then []
    else
      var w := words[|words| - 1];
      if GuessBaseForm(w) == b then Bump(FormTally(words[..|words| - 1], b), w)
      else FormTally(words[..|words| - 1], b)
  }

  lemma {:induction false} BaseTallyCounts(words: seq<string>)
    ensures WellFormed(BaseTally(words))
    ensures Sum(BaseTally(words)) == |words|
    ensures forall b :: CountOf(BaseTally(words), b) == CountBase(words, b)
  {
    if words != [] {
      BaseTallyCounts(words[..|words| - 1]);
    }
  }

  lemma {:induction false} FormTallyCounts(words: seq<string>, b: string)
    ensures WellFormed(FormTally(words, b))
    ensures forall f :: CountOf(FormTally(words, b), f) == if GuessBaseForm(f) == b then multiset(words)[f] else 0
  {
    if words != [] {
      var init := words[..|words| - 1];
      FormTallyCounts(init, b);
      assert words == init + [words[|words| - 1]];
    }
  }

  /** A word's base form is counted at least once. */
  lemma {:induction false} CountBaseOfWord(words: seq<string>, j: nat)
    requires j < |words|
    ensures CountBase(words, GuessBaseForm(words[j])) > 0
  {
    if j < |words| - 1 {
      CountBaseOfWord(words[..|words| - 1], j);
    }
  }

  /** A counted base form is the base form of some word. */
  lemma {:induction false} CountedBaseHasWord(words: seq<string>, b: string)
    requires CountBase(words, b) > 0
    ensures exists j :: 0 <= j < |words| && GuessBaseForm(words[j]) == b
  {
    if GuessBaseForm(words[|words| - 1]) != b {
      CountedBaseHasWord(words[..|words| - 1], b);
      var j :| 0 <= j < |words| - 1 && GuessBaseForm(words[..|words| - 1][j]) == b;
      assert words[j] == words[..|words| - 1][j];
    }
  }

  /** Every item of `base_counts` carries the number of words with that base form. */
  lemma BaseItemsCounted(words: seq<string>)
    ensures forall i :: 0 <= i < |BaseTally(words)| ==>
      CountBase(words, BaseTally(words)[i].0) == BaseTally(words)[i].1 > 0
  {
    var t := BaseTally(words);
    BaseTallyCounts(words);
    forall i | 0 <= i < |t| ensures CountBase(words, t[i].0) == t[i].1 > 0 {
      ItemCount(t, i);
    }
  }

  // ---------------------------------------------------------------------------
  // most_common(1) and the labels
  // ---------------------------------------------------------------------------

  /** The first item with the largest count. */
  function ArgMax(t: Tally): (m: nat)
    requires |t| > 0
    ensures m < |t|
    ensures forall j :: 0 <= j < |t| ==> t[j].1 <= t[m].1
    ensures forall j :: 0 <= j < m ==> t[j].1 < t[m].1
  {
    if |t| == 1 then 0
    else
      var m := ArgMax(t[..|t| - 1]);
      if t[|t| - 1].1 > t[m].1 then |t| - 1 else m
  }

  /** `counter.most_common(1)[0][0]`: ties go to the key inserted first. */
  function MostCommon(t: Tally): string
    requires |t| > 0
  {
    t[ArgMax(t)].0
  }

  /** The label of a counted base form: its most common spelling. */
  function LabelFor(words: seq<string>, b: string): string
    requires CountBase(words, b) > 0
  {
    FormTallyNonEmpty(words, b);
    MostCommon(FormTally(words, b))
  }

  lemma FormTallyNonEmpty(words: seq<string>, b: string)
    requires CountBase(words, b) > 0
    ensures |FormTally(words, b)| > 0
  {
    CountedBaseHasWord(words, b);
    var j :| 0 <= j < |words| && GuessBaseForm(words[j]) == b;
    FormTallyCounts(words, b);
    assert words[j] in multiset(words);
    assert CountOf(FormTally(words, b), words[j]) > 0;
  }

  /**
   * A label is one of the words, has the base form it labels, and no other
   * spelling of that base form occurs more often.
   */
  lemma LabelIsMostCommonForm(words: seq<string>, b: string)
    requires CountBase(words, b) > 0
    ensures LabelFor(words, b) in words
    ensures GuessBaseForm(LabelFor(words, b)) == b
    ensures forall w :: w in words && GuessBaseForm(w) == b ==> multiset(words)[w] <= multiset(words)[LabelFor(words, b)]
  {
    FormTallyNonEmpty(words, b);
    FormTallyCounts(words, b);
    var t := FormTally(words, b);
    var m := ArgMax(t);
    var best := t[m].0;
    ItemCount(t, m);
    assert CountOf(t, best) > 0;
    forall w | w in words && GuessBaseForm(w) == b ensures multiset(words)[w] <= multiset(words)[best] {
      assert CountOf(t, w) > 0;
      CountedKeyPresent(t, w);
      var j :| 0 <= j < |t| && t[j].0 == w;
      ItemCount(t, j);
    }
  }

  /** `labeled`: one (label, count) pair per item of a base tally, in its order. */
  function Labeled(words: seq<string>, bases: Tally): (r: seq<(string, nat)>)
    requires forall i :: 0 <= i < |bases| ==> CountBase(words, bases[i].0) > 0
    ensures |r| == |bases|
  {
    seq(|bases|, i requires 0 <= i < |bases| => (LabelFor(words, bases[i].0), bases[i].1))
  }

  /** `labeled` after the second loop: every base form, labelled, in order of first appearance. */
  function BaseLabels(words: seq<string>): seq<(string, nat)> {
    BaseItemsCounted(words);
    Labeled(words, BaseTally(words))
  }

  // ---------------------------------------------------------------------------
  // labeled.sort(key=lambda t: t[0].lower())
  // ---------------------------------------------------------------------------

  predicate SortedByLabel(s: seq<(string, nat)>) {
    forall i, j :: 0 <= i < j < |s| ==> LexLe(Lower(s[i].0), Lower(s[j].0))
  }

  /** Put `x`, which came before every pair of `s`, in front of the first pair whose key is not smaller. */
  function InsertByLabel(x: (string, nat), s: seq<(string, nat)>): (r: seq<(string, nat)>)
    requires SortedByLabel(s)
    ensures SortedByLabel(r)
    ensures multiset(r) == multiset(s) + multiset{x}
  {
    if s == [] then [x]
    else if LexLe(Lower(x.0), Lower(s[0].0)) then
      assert forall j :: 0 <= j < |s| ==> LexLe(Lower(x.0), Lower(s[j].0)) by {
        forall j | 0 <= j < |s| ensures LexLe(Lower(x.0), Lower(s[j].0)) {
          if j > 0 { LexLeTransitive(Lower(x.0), Lower(s[0].0), Lower(s[j].0)); }
        }
      }
      [x] + s
    else
      var rest := InsertByLabel(x, s[1..]);
      LexLeTotal(Lower(x.0), Lower(s[0].0));
      assert s == [s[0]] + s[1..];
      assert forall j :: 0 <= j < |rest| ==> LexLe(Lower(s[0].0), Lower(rest[j].0)) by {
        forall j | 0 <= j < |rest| ensures LexLe(Lower(s[0].0), Lower(rest[j].0)) {
          assert rest[j] in multiset(rest);
          if rest[j] != x {
            var k :| 0 <= k < |s[1..]| && s[1..][k] == rest[j];
            assert s[k + 1] == rest[j];
          }
        }
      }
      [s[0]] + rest
  }

  /** A stable sort by the lower-cased label, as `list.sort` is. */
  function SortByLabel(s: seq<(string, nat)>): (r: seq<(string, nat)>)
    ensures SortedByLabel(r)
    ensures multiset(r) == multiset(s)
  {
    if s == [] then []
    else
      assert s == [s[0]] + s[1..];
      InsertByLabel(s[0], SortByLabel(s[1..]))
  }

  lemma {:induction false} InsertSum(x: (string, nat), s: seq<(string, nat)>)
    requires SortedByLabel(s)
    ensures Sum(InsertByLabel(x, s)) == Sum(s) + x.1
  {
    if s != [] && !LexLe(Lower(x.0), Lower(s[0].0)) {
      InsertSum(x, s[1..]);
      assert ([s[0]] + InsertByLabel(x, s[1..]))[1..] == InsertByLabel(x, s[1..]);
    } else {
      assert ([x] + s)[1..] == s;
    }
  }

  /** Sorting keeps the total count. */
  lemma {:induction false} SortSum(s: seq<(string, nat)>)
    ensures Sum(SortByLabel(s)) == Sum(s)
  {
    if s != [] {
      SortSum(s[1..]);
      InsertSum(s[0], SortByLabel(s[1..]));
    }
  }

  /** No two pairs label the same base form. */
  predicate DistinctBases(s: seq<(string, nat)>) {
    forall i, j :: 0 <= i < j < |s| ==> GuessBaseForm(s[i].0) != GuessBaseForm(s[j].0)
  }

  /** A pair of `s` is `s[0]` or a pair of `s[1..]`. */
  lemma InTail(s: seq<(string, nat)>, y: (string, nat))
    requires |s| > 0 && y in multiset(s[1..])
    ensures exists k :: 1 <= k < |s| && s[k] == y
  {
    var k :| 0 <= k < |s[1..]| && s[1..][k] == y;
    assert s[k + 1] == y;
  }

  lemma {:induction false} InsertDistinct(x: (string, nat), s: seq<(string, nat)>)
    requires SortedByLabel(s) && DistinctBases(s)
    requires forall i :: 0 <= i < |s| ==> GuessBaseForm(s[i].0) != GuessBaseForm(x.0)
    ensures DistinctBases(InsertByLabel(x, s))
  {
    if s != [] && !LexLe(Lower(x.0), Lower(s[0].0)) {
      var rest := InsertByLabel(x, s[1..]);
      InsertDistinct(x, s[1..]);
      assert s == [s[0]] + s[1..];
      forall j | 0 <= j < |rest| ensures GuessBaseForm(s[0].0) != GuessBaseForm(rest[j].0) {
        assert rest[j] in multiset(rest);
        if rest[j] != x {
          InTail(s, rest[j]);
        }
      }
      assert ([s[0]] + rest)[1..] == rest;
    }
  }

  /** Sorting pairs with distinct base forms keeps them distinct. */
  lemma {:induction false} SortDistinct(s: seq<(string, nat)>)
    requires DistinctBases(s)
    ensures DistinctBases(SortByLabel(s))
  {
    if s != [] {
      var sorted := SortByLabel(s[1..]);
      SortDistinct(s[1..]);
      assert s == [s[0]] + s[1..];
      forall i | 0 <= i < |sorted| ensures GuessBaseForm(sorted[i].0) != GuessBaseForm(s[0].0) {
        assert sorted[i] in multiset(s[1..]);
        InTail(s, sorted[i]);
      }
      InsertDistinct(s[0], sorted);
    }
  }

  // ---------------------------------------------------------------------------
  // compute_word_counts
  // ---------------------------------------------------------------------------

  /** The word bank: labelled counts of the base forms, sorted by label. */
  function WordCounts(words: seq<string>): seq<(string, nat)> {
    SortByLabel(BaseLabels(words))
  }

  /** `forms_for_base[b]` of the `defaultdict`: an empty counter for a base not yet seen. */
  function FormsOf(forms: map<string, Tally>, b: string): Tally {
    if b in forms then forms[b] else []
  }

  lemma CountingStep(words: seq<string>, i: nat)
    requires i < |words|
    ensures BaseTally(words[..i + 1]) == Bump(BaseTally(words[..i]), GuessBaseForm(words[i]))
  {
    assert words[..i + 1][..i] == words[..i];
  }

  /** One step of the loop keeps `forms_for_base[b]` equal to the tally of `b`'s spellings seen. */
  lemma FormsStep(words: seq<string>, i: nat, forms: map<string, Tally>, b: string)
    requires i < |words|
    requires FormsOf(forms, b) == FormTally(words[..i], b)
    ensures FormsOf(forms[GuessBaseForm(words[i]) := Bump(FormsOf(forms, GuessBaseForm(words[i])), words[i])], b)
      == FormTally(words[..i + 1], b)
  {
    assert words[..i + 1][..i] == words[..i];
  }

  lemma LabelingStep(words: seq<string>, bases: Tally, k: nat)
    requires k < |bases|
    requires forall i :: 0 <= i < |bases| ==> CountBase(words, bases[i].0) > 0
    ensures Labeled(words, bases[..k + 1]) == Labeled(words, bases[..k]) + [(LabelFor(words, bases[k].0), bases[k].1)]
  {
  }

  /** The first loop of `compute_word_counts`: `base_counts` and `forms_for_base`. */
  method CountForms(words: seq<string>) returns (baseCounts: Tally, formsForBase: map<string, Tally>)
    ensures baseCounts == BaseTally(words)
    ensures forall b :: FormsOf(formsForBase, b) == FormTally(words, b)
  {
    baseCounts := [];
    formsForBase := map[];
    for i := 0 to |words|
      invariant baseCounts == BaseTally(words[..i])
      invariant forall b :: FormsOf(formsForBase, b) == FormTally(words[..i], b)
    {
      var form := words[i];
      var base := GuessBaseForm(form);
      CountingStep(words, i);
      var next := formsForBase[base := Bump(FormsOf(formsForBase, base), form)];
      forall b ensures FormsOf(next, b) == FormTally(words[..i + 1], b) {
        FormsStep(words, i, formsForBase, b);
      }
      baseCounts := Bump(baseCounts, base);
      formsForBase := next;
    }
    assert words[..|words|] == words;
  }

  /** `compute_word_counts(entries)`, given the entries' words in order. */
  method ComputeWordCounts(words: seq<string>) returns (r: seq<(string, nat)>)
    ensures r == WordCounts(words)
  {
    var baseCounts, formsForBase := CountForms(words);
    BaseItemsCounted(words);

    var labeled: seq<(string, nat)> := [];
    for k := 0 to |baseCounts|
      invariant labeled == Labeled(words, baseCounts[..k])
    {
      var (base, cnt) := baseCounts[k];
      FormTallyNonEmpty(words, base);
      var commonForm := MostCommon(FormsOf(formsForBase, base));
      LabelingStep(words, baseCounts, k);
      labeled := labeled + [(commonForm, cnt)];
    }
    assert baseCounts[..|baseCounts|] == baseCounts;
    r := SortByLabel(labeled);
  }

  // ---------------------------------------------------------------------------
  // What the word bank promises
  // ---------------------------------------------------------------------------

  lemma {:induction false} LabeledSum(words: seq<string>, bases: Tally)
    requires forall i :: 0 <= i < |bases| ==> CountBase(words, bases[i].0) > 0
    ensures Sum(Labeled(words, bases)) == Sum(bases)
  {
    if bases != [] {
      assert Labeled(words, bases)[1..] == Labeled(words, bases[1..]);
      LabeledSum(words, bases[1..]);
    }
  }

  /** The counts add up to the number of words. */
  lemma WordCountsSum(words: seq<string>)
    ensures Sum(WordCounts(words)) == |words|
  {
    BaseItemsCounted(words);
    BaseTallyCounts(words);
    LabeledSum(words, BaseTally(words));
    SortSum(BaseLabels(words));
  }

  /** The labels are in case-insensitive order. */
  lemma WordCountsSorted(words: seq<string>)
    ensures SortedByLabel(WordCounts(words))
  {
  }

  /**
   * What holds of every pair: the label is one of the words, no spelling of
   * its base form occurs more often, and the count is the number of words
   * with that base form.
   */
  predicate GoodPair(words: seq<string>, x: (string, nat)) {
    && x.0 in words
    && x.1 == CountBase(words, GuessBaseForm(x.0))
    && forall w :: w in words && GuessBaseForm(w) == GuessBaseForm(x.0) ==> multiset(words)[w] <= multiset(words)[x.0]
  }

  lemma BaseLabelsGood(words: seq<string>, i: nat)
    requires i < |BaseLabels(words)|
    ensures GoodPair(words, BaseLabels(words)[i])
    ensures GuessBaseForm(BaseLabels(words)[i].0) == BaseTally(words)[i].0
  {
    BaseItemsCounted(words);
    LabelIsMostCommonForm(words, BaseTally(words)[i].0);
  }

  lemma BaseLabelsDistinct(words: seq<string>)
    ensures DistinctBases(BaseLabels(words))
  {
    var l := BaseLabels(words);
    BaseTallyCounts(words);
    forall i, j | 0 <= i < j < |l| ensures GuessBaseForm(l[i].0) != GuessBaseForm(l[j].0) {
      BaseLabelsGood(words, i);
      BaseLabelsGood(words, j);
      TallyKeysDistinct(BaseTally(words), i, j);
    }
  }

  lemma BaseLabelsCover(words: seq<string>, j: nat)
    requires j < |words|
    ensures exists i :: 0 <= i < |BaseLabels(words)| && GuessBaseForm(BaseLabels(words)[i].0) == GuessBaseForm(words[j])
  {
    var t := BaseTally(words);
    BaseTallyCounts(words);
    CountBaseOfWord(words, j);
    CountedKeyPresent(t, GuessBaseForm(words[j]));
    var i :| 0 <= i < |t| && t[i].0 == GuessBaseForm(words[j]);
    BaseLabelsGood(words, i);
  }

  /** No base form is labelled twice, and every word's base form is labelled. */
  lemma WordCountsOnePerBase(words: seq<string>)
    ensures DistinctBases(WordCounts(words))
    ensures forall j :: 0 <= j < |words| ==>
      exists i :: 0 <= i < |WordCounts(words)| && GuessBaseForm(WordCounts(words)[i].0) == GuessBaseForm(words[j])
  {
    var l := BaseLabels(words);
    var r := WordCounts(words);
    BaseLabelsDistinct(words);
    SortDistinct(l);
    forall j | 0 <= j < |words|
      ensures exists i :: 0 <= i < |r| && GuessBaseForm(r[i].0) == GuessBaseForm(words[j])
    {
      BaseLabelsCover(words, j);
      var i :| 0 <= i < |l| && GuessBaseForm(l[i].0) == GuessBaseForm(words[j]);
      assert l[i] in multiset(r);
      var k :| 0 <= k < |r| && r[k] == l[i];
    }
  }

  /** Each pair's label is a most frequent spelling among the words, and its count is that of its base form. */
  lemma WordCountsLabels(words: seq<string>)
    ensures forall i :: 0 <= i < |WordCounts(words)| ==> GoodPair(words, WordCounts(words)[i])
  {
    var l := BaseLabels(words);
    var r := WordCounts(words);
    forall i | 0 <= i < |r| ensures GoodPair(words, r[i]) {
      assert r[i] in multiset(l);
      var k :| 0 <= k < |l| && l[k] == r[i];
      BaseLabelsGood(words, k);
    }
  }

  /**
   * No two labels are equal once lower-cased, so the order by lower-cased
   * label is strict and `sorted` leaves no tie for its stability to break.
   */
  lemma WordCountsStrictlySorted(words: seq<string>)
    ensures forall i, j :: 0 <= i < j < |WordCounts(words)| ==>
      LexLe(Lower(WordCounts(words)[i].0), Lower(WordCounts(words)[j].0))
      && Lower(WordCounts(words)[i].0) != Lower(WordCounts(words)[j].0)
  {
    var r := WordCounts(words);
    WordCountsOnePerBase(words);
    WordCountsSorted(words);
    forall i, j | 0 <= i < j < |r| ensures Lower(r[i].0) != Lower(r[j].0) {
      GuessIgnoresCase(r[i].0);
      GuessIgnoresCase(r[j].0);
    }
  }
}
