/**
 * The string operations of Python's `str` that the scripts use:
 * `replace`, `strip`, `lower`, `title`, ordering and `sorted`.
 */
module Text {

  // ---------------------------------------------------------------------------
  // str.replace
  // ---------------------------------------------------------------------------

  predicate OccursAt(t: string, pat: string, p: int) {
    0 <= p && p + |pat| <= |t| && t[p..p + |pat|] == pat
  }

  /** `pat in t` */
  predicate Occurs(t: string, pat: string) {
    exists p :: 0 <= p <= |t| && OccursAt(t, pat, p)
  }

  /**
   * `s.replace(pat, rep)`: scan left to right, replace each occurrence that does
   * not overlap an earlier replaced one. Every caller passes a non-empty `pat`.
   */
  function Replace(s: string, pat: string, rep: string): string
    requires |pat| > 0
    decreases |s|
  {
    if |s| < |pat| then s
    else if s[..|pat|] == pat then rep + Replace(s[|pat|..], pat, rep)
    else [s[0]] + Replace(s[1..], pat, rep)
  }

  /** A string in which `pat` does not occur comes back unchanged. */
  lemma {:induction false} ReplaceWithoutOccurrence(s: string, pat: string, rep: string)
    requires |pat| > 0
    requires !Occurs(s, pat)
    ensures Replace(s, pat, rep) == s
    decreases |s|
  {
    if |s| >= |pat| {
      assert !OccursAt(s, pat, 0);
      assert !Occurs(s[1..], pat) by {
        forall p | OccursAt(s[1..], pat, p) ensures false {
          assert s[1..][p..p + |pat|] == s[p + 1..p + 1 + |pat|];
          assert OccursAt(s, pat, p + 1);
        }
      }
      ReplaceWithoutOccurrence(s[1..], pat, rep);
    }
  }

  /** The first `q` characters of the result are either the original ones or include a character of `rep` that is not in `pat`. */
  predicate KeptOrMarked(s: string, r: string, pat: string, q: nat)
    requires q <= |r|
  {
    (q <= |s| && r[..q] == s[..q]) || (exists j :: 0 <= j < q && r[j] !in pat)
  }

  lemma {:induction false} ReplacePrefix(s: string, pat: string, rep: string, q: nat)
    requires |pat| > 0 && |rep| > 0
    requires forall c :: c in rep ==> c !in pat
    requires q <= |Replace(s, pat, rep)|
    ensures KeptOrMarked(s, Replace(s, pat, rep), pat, q)
    decreases |s|
  {
    var r := Replace(s, pat, rep);
    if q == 0 || |s| < |pat| {
    } else if s[..|pat|] == pat {
      assert r[0] == rep[0];
    } else {
      var r1 := Replace(s[1..], pat, rep);
      assert r == [s[0]] + r1;
      ReplacePrefix(s[1..], pat, rep, q - 1);
      if q - 1 <= |s[1..]| && r1[..q - 1] == s[1..][..q - 1] {
        assert r[..q] == [s[0]] + r1[..q - 1];
        assert s[..q] == [s[0]] + s[1..][..q - 1];
      } else {
        var j :| 0 <= j < q - 1 && r1[j] !in pat;
        assert r[j + 1] == r1[j];
      }
    }
  }

  /** An occurrence starting past a prefix `x` of `x + y` would be an occurrence in `y`. */
  lemma NoOccurrenceBeyond(x: string, y: string, pat: string)
    requires !Occurs(y, pat)
    ensures forall p :: |x| <= p ==> !OccursAt(x + y, pat, p)
  {
    var t := x + y;
    forall p | |x| <= p && p + |pat| <= |t| ensures !OccursAt(t, pat, p) {
      assert t[p..p + |pat|] == y[p - |x|..p - |x| + |pat|];
      assert !OccursAt(y, pat, p - |x|);
    }
  }

  /** No occurrence starts inside a replacement text that shares no character with the pattern. */
  lemma NoOccurrenceAfterReplacement(rep: string, r2: string, pat: string)
    requires |pat| > 0 && forall c :: c in rep ==> c !in pat
    requires !Occurs(r2, pat)
    ensures !Occurs(rep + r2, pat)
  {
    var r := rep + r2;
    var n := |pat|;
    NoOccurrenceBeyond(rep, r2, pat);
    assert pat[0] in pat;
    forall p | 0 <= p < |rep| && p + n <= |r| ensures !OccursAt(r, pat, p) {
      assert r[p..p + n][0] == rep[p] && rep[p] in rep;
    }
  }

  /** The kept first character does not start an occurrence: the text after it is the original or marked. */
  lemma NoOccurrenceAtKept(s: string, pat: string, rep: string)
    requires |pat| > 0 && |rep| > 0
    requires forall c :: c in rep ==> c !in pat
    requires |s| >= |pat| && s[..|pat|] != pat
    ensures !OccursAt([s[0]] + Replace(s[1..], pat, rep), pat, 0)
  {
    var r1 := Replace(s[1..], pat, rep);
    var r := [s[0]] + r1;
    var n := |pat|;
    if n <= |r| {
      ReplacePrefix(s[1..], pat, rep, n - 1);
      if r1[..n - 1] == s[1..][..n - 1] {
        assert r[..n] == [s[0]] + r1[..n - 1];
        assert s[..n] == [s[0]] + s[1..][..n - 1];
      } else {
        var j :| 0 <= j < n - 1 && r1[j] !in pat;
        assert r[j + 1] == r1[j];
        MarkedBreaksOccurrence(r, pat, j + 1);
      }
    }
  }

  /** A character that is not in the pattern cannot lie inside an occurrence. */
  lemma MarkedBreaksOccurrence(r: string, pat: string, j: nat)
    requires j < |pat| <= |r| && r[j] !in pat
    ensures !OccursAt(r, pat, 0)
  {
    assert pat[j] in pat;
    assert r[..|pat|][j] == r[j];
  }

  /**
   * When no character of the replacement occurs in the pattern, no occurrence
   * of the pattern is left over (none survives and none is formed at a seam).
   */
  lemma {:induction false} ReplaceLeavesNoOccurrence(s: string, pat: string, rep: string)
    requires |pat| > 0 && |rep| > 0
    requires forall c :: c in rep ==> c !in pat
    ensures !Occurs(Replace(s, pat, rep), pat)
    decreases |s|
  {
    var n := |pat|;
    if |s| < n {
      assert Replace(s, pat, rep) == s;
      forall p | 0 <= p <= |s| ensures !OccursAt(s, pat, p) {
      }
    } else if s[..n] == pat {
      ReplaceLeavesNoOccurrence(s[n..], pat, rep);
      NoOccurrenceAfterReplacement(rep, Replace(s[n..], pat, rep), pat);
    } else {
      ReplaceLeavesNoOccurrence(s[1..], pat, rep);
      NoOccurrenceAtKept(s, pat, rep);
      NoOccurrenceBeyond([s[0]], Replace(s[1..], pat, rep), pat);
      assert Replace(s, pat, rep) == [s[0]] + Replace(s[1..], pat, rep);
    }
  }

  /** An occurrence of `pat` that begins in `a` and ends in `c`. */
  predicate Straddles(a: string, c: string, pat: string) {
    exists p :: 0 <= p < |a| < p + |pat| && OccursAt(a + c, pat, p)
  }

  /** Dropping a prefix of `a` cannot create a straddling occurrence. */
  lemma NoStraddleSuffix(a: string, c: string, pat: string, k: nat)
    requires k <= |a|
    requires !Straddles(a, c, pat)
    ensures !Straddles(a[k..], c, pat)
  {
    var a' := a[k..];
    forall p | 0 <= p < |a'| < p + |pat| && OccursAt(a' + c, pat, p) ensures false {
      assert a' + c == (a + c)[k..];
      assert (a' + c)[p..p + |pat|] == (a + c)[p + k..p + k + |pat|];
      assert OccursAt(a + c, pat, p + k);
    }
  }

  /** An occurrence at the start of `a + c` that does not cross the seam lies in `a`. */
  lemma HeadMatchInside(a: string, c: string, pat: string)
    requires |a| > 0 && !Straddles(a, c, pat) && OccursAt(a + c, pat, 0)
    ensures |pat| <= |a| && a[..|pat|] == pat
  {
    assert |pat| <= |a| by {
      if |a| < |pat| {
        assert false;
      }
    }
    assert a[..|pat|] == (a + c)[..|pat|];
  }

  /** Replacing in a concatenation splits at a seam that no occurrence crosses. */
  lemma {:induction false} ReplaceConcat(a: string, c: string, pat: string, rep: string)
    requires |pat| > 0
    requires !Straddles(a, c, pat)
    ensures Replace(a + c, pat, rep) == Replace(a, pat, rep) + Replace(c, pat, rep)
    decreases |a|
  {
    var n := |pat|;
    var s := a + c;
    if |a| == 0 {
      assert s == c;
    } else if |s| < n {
    } else if s[..n] == pat {
      HeadMatchInside(a, c, pat);
      assert s[n..] == a[n..] + c;
      NoStraddleSuffix(a, c, pat, n);
      ReplaceConcat(a[n..], c, pat, rep);
      assert Replace(a, pat, rep) == rep + Replace(a[n..], pat, rep);
    } else {
      assert s[1..] == a[1..] + c;
      NoStraddleSuffix(a, c, pat, 1);
      ReplaceConcat(a[1..], c, pat, rep);
      if |a| >= n {
        assert a[..n] == s[..n];
      }
    }
  }

  /** Replacing with a string of the pattern's own length keeps the length. */
  lemma {:induction false} ReplaceKeepsLength(s: string, pat: string, rep: string)
    requires |pat| > 0 && |rep| == |pat|
    ensures |Replace(s, pat, rep)| == |s|
    decreases |s|
  {
    if |s| >= |pat| {
      if s[..|pat|] == pat {
        ReplaceKeepsLength(s[|pat|..], pat, rep);
      } else {
        ReplaceKeepsLength(s[1..], pat, rep);
      }
    }
  }

  /** Text without the first character of `pat` holds no occurrence of it and starts none that runs on. */
  lemma FreeOfHead(a: string, t: string, pat: string)
    requires |pat| > 0 && pat[0] !in a
    ensures !Occurs(a, pat) && !Straddles(a, t, pat)
  {
    forall p | 0 <= p <= |a| ensures !OccursAt(a, pat, p) {
      if p + |pat| <= |a| {
        assert a[p..p + |pat|][0] == a[p];
      }
    }
    forall p | 0 <= p < |a| < p + |pat| ensures !OccursAt(a + t, pat, p) {
      if p + |pat| <= |a + t| {
        assert (a + t)[p..p + |pat|][0] == a[p];
      }
    }
  }

  /** Text up to the first occurrence is kept, the occurrence is replaced, and the rest is replaced on its own. */
  lemma ReplaceFirstOccurrence(a: string, b: string, pat: string, rep: string)
    requires |pat| > 0 && pat[0] !in a
    ensures Replace(a + pat + b, pat, rep) == a + rep + Replace(b, pat, rep)
  {
    FreeOfHead(a, pat + b, pat);
    ReplaceConcat(a, pat + b, pat, rep);
    ReplaceWithoutOccurrence(a, pat, rep);
    assert (pat + b)[..|pat|] == pat && (pat + b)[|pat|..] == b;
    assert a + pat + b == a + (pat + b);
  }

  /** A `{name}` placeholder. */
  function Placeholder(name: string): string {
    "{" + name + "}"
  }

  predicate BraceFree(s: string) {
    '{' !in s && '}' !in s
  }

  lemma PlaceholderChars(k: string, i: int)
    requires 0 <= i < |Placeholder(k)|
    ensures Placeholder(k)[i] == if i == 0 then '{' else if i == |k| + 1 then '}' else k[i - 1]
  {
  }

  /** No `{k}` runs from `a` into text that starts with `{`. */
  lemma NoStraddleIntoBrace(a: string, t: string, k: string)
    requires |t| > 0 && t[0] == '{' && BraceFree(k)
    ensures !Straddles(a, t, Placeholder(k))
  {
    var pat := Placeholder(k);
    forall p | 0 <= p < |a| < p + |pat| ensures !OccursAt(a + t, pat, p) {
      var i := |a| - p;
      PlaceholderChars(k, i);
      if p + |pat| <= |a + t| {
        assert (a + t)[p..p + |pat|][i] == '{' != pat[i];
      }
    }
  }

  /** No `{k}` runs out of a `{u}` placeholder into what follows it. */
  lemma NoStraddleOutOfPlaceholder(u: string, b: string, k: string)
    requires BraceFree(u) && BraceFree(k)
    ensures !Straddles(Placeholder(u), b, Placeholder(k))
  {
    var pat, hole := Placeholder(k), Placeholder(u);
    forall p | 0 <= p < |hole| < p + |pat| ensures !OccursAt(hole + b, pat, p) {
      PlaceholderChars(u, p);
      if p == 0 && |pat| <= |hole + b| {
        PlaceholderChars(k, |u| + 1);
        PlaceholderChars(u, |u| + 1);
        assert k[|u|] in k;
        assert (hole + b)[..|pat|][|u| + 1] == '}' != pat[|u| + 1];
      } else if p > 0 && p + |pat| <= |hole + b| {
        assert p <= |u| ==> u[p - 1] in u;
        assert (hole + b)[p..p + |pat|][0] == hole[p] != '{';
        PlaceholderChars(k, 0);
      }
    }
  }

  /** `{k}` does not occur in `{u}` for another brace-free name `u`. */
  lemma PlaceholderNotInOther(u: string, k: string)
    requires BraceFree(u) && BraceFree(k) && u != k
    ensures !Occurs(Placeholder(u), Placeholder(k))
  {
    var pat, hole := Placeholder(k), Placeholder(u);
    forall p | 0 <= p ensures !OccursAt(hole, pat, p) {
      if p + |pat| <= |hole| {
        PlaceholderChars(u, p);
        if p > 0 {
          assert hole[p..p + |pat|][0] != '{';
        } else if |k| < |u| {
          PlaceholderChars(k, |k| + 1);
          PlaceholderChars(u, |k| + 1);
          assert hole[..|pat|][|k| + 1] != pat[|k| + 1];
        } else {
          assert hole[1..|hole| - 1] == u && pat[1..|pat| - 1] == k;
        }
      }
    }
  }

  /**
   * Replacing the placeholder of one name leaves the placeholder of any other
   * (brace-free) name where it is.
   */
  lemma PlaceholderSurvivesReplace(a: string, b: string, u: string, k: string, rep: string)
    requires BraceFree(u) && BraceFree(k) && u != k
    ensures Replace(a + Placeholder(u) + b, Placeholder(k), rep)
         == Replace(a, Placeholder(k), rep) + Placeholder(u) + Replace(b, Placeholder(k), rep)
  {
    var pat, hole := Placeholder(k), Placeholder(u);
    var left, right := Replace(a, pat, rep), Replace(b, pat, rep);
    assert Replace(hole + b, pat, rep) == hole + right by {
      NoStraddleOutOfPlaceholder(u, b, k);
      PlaceholderNotInOther(u, k);
      ReplaceConcat(hole, b, pat, rep);
      ReplaceWithoutOccurrence(hole, pat, rep);
    }
    assert Replace(a + (hole + b), pat, rep) == left + Replace(hole + b, pat, rep) by {
      assert (hole + b)[0] == '{';
      NoStraddleIntoBrace(a, hole + b, k);
      ReplaceConcat(a, hole + b, pat, rep);
    }
    assert a + hole + b == a + (hole + b);
    assert left + (hole + right) == left + hole + right;
  }

  /** The placeholder itself is filled in, and the text around it is replaced on its own. */
  lemma PlaceholderFilled(a: string, b: string, k: string, rep: string)
    requires BraceFree(k)
    ensures Replace(a + Placeholder(k) + b, Placeholder(k), rep)
         == Replace(a, Placeholder(k), rep) + rep + Replace(b, Placeholder(k), rep)
  {
    var pat := Placeholder(k);
    NoStraddleIntoBrace(a, pat + b, k);
    ReplaceConcat(a, pat + b, pat, rep);
    assert (pat + b)[..|pat|] == pat && (pat + b)[|pat|..] == b;
    assert a + pat + b == a + (pat + b);
  }

  // ---------------------------------------------------------------------------
  // Ordering of strings and sorted()
  // ---------------------------------------------------------------------------

  /** Python's `a <= b` on `str`: lexicographic by code point, a prefix first. */
  predicate LexLe(a: string, b: string)
    decreases |a|
  {
    |a| == 0 || (|b| > 0 && (a[0] < b[0] || (a[0] == b[0] && LexLe(a[1..], b[1..]))))
  }

  lemma {:induction false} LexLeTotal(a: string, b: string)
    ensures LexLe(a, b) || LexLe(b, a)
    decreases |a|
  {
    if |a| > 0 && |b| > 0 && a[0] == b[0] {
      LexLeTotal(a[1..], b[1..]);
    }
  }

  lemma {:induction false} LexLeTransitive(a: string, b: string, c: string)
    requires LexLe(a, b) && LexLe(b, c)
    ensures LexLe(a, c)
    decreases |a|
  {
    if |a| > 0 && a[0] == b[0] && b[0] == c[0] {
      LexLeTransitive(a[1..], b[1..], c[1..]);
    }
  }

  lemma {:induction false} LexLeAntisymmetric(a: string, b: string)
    requires LexLe(a, b) && LexLe(b, a)
    ensures a == b
    decreases |a|
  {
    if |a| > 0 {
      LexLeAntisymmetric(a[1..], b[1..]);
      assert a == [a[0]] + a[1..] && b == [b[0]] + b[1..];
    }
  }

  predicate Sorted(s: seq<string>) {
    forall i, j :: 0 <= i < j < |s| ==> LexLe(s[i], s[j])
  }

  function Insert(x: string, s: seq<string>): (r: seq<string>)
    requires Sorted(s)
    ensures Sorted(r)
    ensures multiset(r) == multiset(s) + multiset{x}
  {
    if s == [] then [x]
    else if LexLe(x, s[0]) then
      assert forall j :: 0 <= j < |s| ==> LexLe(x, s[j]) by {
        forall j | 0 <= j < |s| ensures LexLe(x, s[j]) {
          if j > 0 { LexLeTransitive(x, s[0], s[j]); }
        }
      }
      [x] + s
    else
      var rest := Insert(x, s[1..]);
      LexLeTotal(x, s[0]);
      assert s == [s[0]] + s[1..];
      assert forall j :: 0 <= j < |rest| ==> LexLe(s[0], rest[j]) by {
        forall j | 0 <= j < |rest| ensures LexLe(s[0], rest[j]) {
          assert rest[j] in multiset(rest);
          if rest[j] != x {
            assert rest[j] in multiset(s[1..]);
            var k :| 0 <= k < |s[1..]| && s[1..][k] == rest[j];
            assert s[k + 1] == rest[j];
          }
        }
      }
      [s[0]] + rest
  }

  /** `sorted(xs)` on a list of strings: sorted and a permutation of the input. */
  function SortStrings(xs: seq<string>): (r: seq<string>)
    ensures Sorted(r)
    ensures multiset(r) == multiset(xs)
  {
    if xs == [] then []
    else
      assert xs == [xs[0]] + xs[1..];
      Insert(xs[0], SortStrings(xs[1..]))
  }

  // ---------------------------------------------------------------------------
  // strip(), lower(), title()
  // ---------------------------------------------------------------------------

  /** Python's `str.isspace` on one character. */
  predicate IsSpace(c: char) {
    c == '\t' || c == '\n' || c == '\U{000B}' || c == '\U{000C}' || c == '\r'
    || ('\U{001C}' <= c <= '\U{001F}') || c == ' ' || c == '\U{0085}' || c == '\U{00A0}'
    || c == '\U{1680}' || ('\U{2000}' <= c <= '\U{200A}') || c == '\U{2028}' || c == '\U{2029}'
    || c == '\U{202F}' || c == '\U{205F}' || c == '\U{3000}'
  }

  function StripLeft(s: string): string {
    if |s| > 0 && IsSpace(s[0]) then StripLeft(s[1..]) else s
  }

  function StripRight(s: string): string {
    if |s| > 0 && IsSpace(s[|s| - 1]) then StripRight(s[..|s| - 1]) else s
  }

  /** `s.strip()` */
  function Strip(s: string): string {
    StripRight(StripLeft(s))
  }

  predicate IsAsciiUpper(c: char) {
    'A' <= c <= 'Z'
  }

  predicate IsAsciiLower(c: char) {
    'a' <= c <= 'z'
  }

  function LowerChar(c: char): char {
    if IsAsciiUpper(c) then (c as int + 32) as char else c
  }

  function UpperChar(c: char): char {
    if IsAsciiLower(c) then (c as int - 32) as char else c
  }

  /** `s.lower()`, on the ASCII letters. */
  function Lower(s: string): (r: string)
    ensures |r| == |s|
  {
    seq(|s|, i requires 0 <= i < |s| => LowerChar(s[i]))
  }

  /**
   * `s.title()`, on the ASCII letters: a letter that follows a letter is
   * lower-cased, any other letter is upper-cased.
   */
  function TitleCase(s: string): (r: string)
    ensures |r| == |s|
  {
    seq(|s|, i requires 0 <= i < |s| =>
      if i > 0 && (IsAsciiUpper(s[i - 1]) || IsAsciiLower(s[i - 1])) then LowerChar(s[i])
      else UpperChar(s[i]))
  }

  /** Lower-casing twice is lower-casing once. */
  lemma LowerIdempotent(s: string)
    ensures Lower(Lower(s)) == Lower(s)
  {
  }

  /** Lower-casing changes no character into or out of whitespace, so it commutes with `strip`. */
  lemma LowerStripCommute(s: string)
    ensures Lower(Strip(s)) == Strip(Lower(s))
  {
    StripLeftLower(s);
    StripRightLower(StripLeft(s));
  }

  lemma {:induction false} StripLeftLower(s: string)
    ensures StripLeft(Lower(s)) == Lower(StripLeft(s))
    decreases |s|
  {
    if |s| > 0 && IsSpace(s[0]) {
      assert Lower(s)[1..] == Lower(s[1..]);
      StripLeftLower(s[1..]);
    }
  }

  lemma {:induction false} StripRightLower(s: string)
    ensures StripRight(Lower(s)) == Lower(StripRight(s))
    decreases |s|
  {
    if |s| > 0 && IsSpace(s[|s| - 1]) {
      assert Lower(s)[..|s| - 1] == Lower(s[..|s| - 1]);
      StripRightLower(s[..|s| - 1]);
    }
  }
}
