/** The metadata extraction step of the server's `/api/upload` handler: from
    the plain text of an uploaded PDF, five independent pattern searches fill
    the optional fields of a report record, and the `/api/global-search`
    guard on the query text.

    Each regular expression of the handler is written here as an explicit
    scan over the text. Beside each scan stands a "regex-shaped" description
    of what the pattern accepts (label, white space, optional `:` or `-`,
    ...), and a lemma proves that the scan returns the match JavaScript's
    backtracking engine reports: the leftmost start, and at that start the
    split its greedy quantifiers prefer. Case-insensitive (`/i`) matching is
    ASCII case folding, which is exact for these patterns: non-unicode `/i`
    never folds a non-ASCII character onto an ASCII letter. */
module Extractor {
  import opened Text

  /** A matched ESG score numeral, `\d+(?:\.\d+)?`: its integer digits and
      its (possibly empty) fraction digits. */
  datatype Decimal = Decimal(whole: string, fraction: string) {
    predicate Valid() {
      whole != [] && AllDigits(whole) && AllDigits(fraction)
    }

    /** The numeral as it appears in the text. */
    function Text(): string {
      if fraction == [] then whole else whole + "." + fraction
    }

    /** The number `parseFloat` reads from the numeral, before rounding to
        a double. */
    function Value(): real
      requires Valid()
    {
      DigitsValue(whole) as real + DigitsValue(fraction) as real / Pow10(|fraction|) as real
    }
  }

  /** The record the handler stores: each field is `None` (SQL NULL) when
      its pattern does not match. */
  datatype Record = Record(
    esgScore: Option<Decimal>,
    company: Option<string>,
    year: Option<int>,
    metrics: Option<string>,
    summary: Option<string>)

  predicate AllDigits(s: string) {
    forall k :: 0 <= k < |s| ==> IsDigit(s[k])
  }

  function Pow10(n: nat): (r: nat)
    ensures r >= 1
  {
    if n == 0 then 1 else 10 * Pow10(n - 1)
  }

  // ---------------------------------------------------------------------
  // Lexical building blocks

  /** `t` holds the lower-case word `w` at index `i`, ignoring ASCII case. */
  predicate WordAt(t: string, i: int, w: string)
    decreases |w|
  {
    0 <= i && i + |w| <= |t| && (w == [] || (LowerChar(t[i]) == w[0] && WordAt(t, i + 1, w[1..])))
  }

  /** A word occurs in a slice where it occurs in the whole text. */
  lemma {:induction false} WordAtSlice(t: string, i: int, j: int, a: int, w: string)
    requires 0 <= i <= j <= |t|
    ensures WordAt(t[i..j], a, w) <==> (0 <= a && a + |w| <= j - i && WordAt(t, i + a, w))
    decreases |w|
  {
    if w != [] && 0 <= a && a + |w| <= j - i {
      WordAtSlice(t, i, j, a + 1, w[1..]);
    }
  }

  /** The characters of a word match it one by one. */
  lemma {:induction false} WordAtChar(t: string, i: int, w: string, k: int)
    requires WordAt(t, i, w) && 0 <= k < |w|
    ensures LowerChar(t[i + k]) == w[k]
    decreases k
  {
    if k > 0 {
      WordAtChar(t, i + 1, w[1..], k - 1);
    }
  }

  predicate IsSep(c: char) { c == ':' || c == '-' }

  /** End of the white-space run that starts at `i` (greedy `\s*`). */
  function SkipSpaces(t: string, i: nat): (j: nat)
    requires i <= |t|
    ensures i <= j <= |t| && AllSpace(t[i..j])
    ensures j == |t| || !IsSpace(t[j])
    decreases |t| - i
  {
    if i < |t| && IsSpace(t[i]) then
      var j := SkipSpaces(t, i + 1);
      assert t[i..j] == [t[i]] + t[i + 1..j];
      j
    else i
  }

  /** A white-space run followed by a non-space character ends exactly
      where `SkipSpaces` stops. */
  lemma SkipSpacesExact(t: string, i: nat, j: nat)
    requires i <= j <= |t| && AllSpace(t[i..j])
    requires j == |t| || !IsSpace(t[j])
    ensures SkipSpaces(t, i) == j
  {
  }

  /** `SkipSpaces` never passes a non-space character. */
  lemma SkipSpacesStops(t: string, i: nat, k: nat)
    requires i <= k < |t| && !IsSpace(t[k])
    ensures SkipSpaces(t, i) <= k
  {
  }

  // ---------------------------------------------------------------------
  // The gap `\s*[:\-]?\s*` that follows every label

  /** `g` is white space, at most one `:` or `-` at index `a`, white space. */
  ghost predicate GapSplit(g: string, a: int, b: int) {
    0 <= a <= b <= |g| && AllSpace(g[..a]) && (b == a || (b == a + 1 && IsSep(g[a]))) && AllSpace(g[b..])
  }

  /** `g` is matched by `\s*[:\-]?\s*`. */
  ghost predicate IsGap(g: string) {
    exists a, b :: GapSplit(g, a, b)
  }

  /** `t[e..pos]` is a gap. */
  ghost predicate GapFrom(t: string, e: int, pos: int) {
    0 <= e <= pos <= |t| && IsGap(t[e..pos])
  }

  /** Where the greedy `\s*[:\-]?\s*` starting at `e` stops. */
  function GapEnd(t: string, e: nat): (g: nat)
    requires e <= |t|
    ensures e <= g <= |t|
  {
    GapFromSep(t, SkipSpaces(t, e))
  }

  /** The rest of the gap once its leading white space is skipped: an
      optional separator at `j`, then white space. */
  function GapFromSep(t: string, j: nat): (g: nat)
    requires j <= |t|
    ensures j <= g <= |t|
  {
    var k := if j < |t| && IsSep(t[j]) then j + 1 else j;
    SkipSpaces(t, k)
  }

  /** Every character of a gap is white space, except one `:` or `-`. */
  lemma GapChars(g: string, a: int, b: int, k: int)
    requires GapSplit(g, a, b) && 0 <= k < |g|
    ensures IsSpace(g[k]) || (k == a && b == a + 1 && IsSep(g[k]))
  {
    if k < a {
      assert g[..a][k] == g[k];
    } else if k >= b {
      assert g[b..][k - b] == g[k];
    }
  }

  /** The texts the gap accepts from `e` are exactly the prefixes of the
      greedy one: `t[e..pos]` is a gap iff `pos <= GapEnd(t, e)`. */
  lemma GapIff(t: string, e: nat, pos: nat)
    requires e <= pos <= |t|
    ensures IsGap(t[e..pos]) <==> pos <= GapEnd(t, e)
  {
    if pos <= GapEnd(t, e) {
      GapUpToEnd(t, e, pos);
    }
    if IsGap(t[e..pos]) {
      var a, b :| GapSplit(t[e..pos], a, b);
      GapWithinEnd(t, e, pos, a, b);
    }
  }

  /** Every prefix of the greedy gap is a gap. */
  lemma GapUpToEnd(t: string, e: nat, pos: nat)
    requires e <= pos <= |t| && pos <= GapEnd(t, e)
    ensures IsGap(t[e..pos])
  {
    var j := SkipSpaces(t, e);
    var k := if j < |t| && IsSep(t[j]) then j + 1 else j;
    if pos <= j {
      SpaceRunIsGap(t, e, j, pos);
    } else {
      SepRunIsGap(t, e, j, SkipSpaces(t, k), pos);
    }
  }

  /** A prefix of a white-space run is a gap. */
  lemma SpaceRunIsGap(t: string, e: nat, j: nat, pos: nat)
    requires e <= pos <= j <= |t| && AllSpace(t[e..j])
    ensures IsGap(t[e..pos])
  {
    var g := t[e..pos];
    AllSpaceRange(t, e, j, e, pos);
    assert g[..pos - e] == g && g[pos - e..] == [];
    assert GapSplit(g, pos - e, pos - e);
  }

  /** White space, the separator at `j`, then a prefix of white space is
      a gap. */
  lemma SepRunIsGap(t: string, e: nat, j: nat, end: nat, pos: nat)
    requires e <= j < pos <= end <= |t| && IsSep(t[j])
    requires AllSpace(t[e..j]) && AllSpace(t[j + 1..end])
    ensures IsGap(t[e..pos])
  {
    var g := t[e..pos];
    AllSpaceRange(t, j + 1, end, j + 1, pos);
    assert g[..j - e] == t[e..j];
    assert g[j + 1 - e..] == t[j + 1..pos];
    assert g[j - e] == t[j];
    assert GapSplit(g, j - e, j + 1 - e);
  }

  /** White space between `a` and `b` is white space on any range inside. */
  lemma AllSpaceRange(t: string, a: int, b: int, c: int, d: int)
    requires 0 <= a <= c <= d <= b <= |t| && AllSpace(t[a..b])
    ensures AllSpace(t[c..d])
  {
    forall m | 0 <= m < d - c ensures IsSpace(t[c..d][m]) {
      assert t[c..d][m] == t[a..b][c - a + m];
    }
  }

  /** A gap never reaches past the greedy one. */
  lemma GapWithinEnd(t: string, e: nat, pos: nat, a: int, b: int)
    requires e <= pos <= |t| && GapSplit(t[e..pos], a, b)
    ensures pos <= GapEnd(t, e)
  {
    var g := t[e..pos];
    var j := SkipSpaces(t, e);
    var k := if j < |t| && IsSep(t[j]) then j + 1 else j;
    var end := SkipSpaces(t, k);
    if pos > end {
      assert j < |t|;
      GapChars(g, a, b, j - e);
      assert k == j + 1;
      GapChars(g, a, b, end - e);
    }
  }

  /** No digit occurs in a gap. */
  lemma GapHasNoDigit(g: string, k: int)
    requires IsGap(g) && 0 <= k < |g|
    ensures !IsDigit(g[k])
  {
    var a, b :| GapSplit(g, a, b);
    GapChars(g, a, b, k);
  }

  /** When a non-gap character ends a gap, the gap is the greedy one. */
  lemma GapEndsAt(t: string, e: nat, q: nat)
    requires e <= q < |t| && !IsSpace(t[q]) && !IsSep(t[q])
    requires IsGap(t[e..q])
    ensures GapEnd(t, e) == q
  {
    GapIff(t, e, q);
    var end := GapEnd(t, e);
    if end > q {
      GapIff(t, e, end);
      var a, b :| GapSplit(t[e..end], a, b);
      GapChars(t[e..end], a, b, q - e);
    }
  }

  // ---------------------------------------------------------------------
  // Word search, the `/word/i` tests

  /** The first index at or after `from` where `w` occurs, ignoring case. */
  function FindWord(t: string, w: string, from: nat): (r: Option<nat>)
    requires from <= |t|
    ensures r.Some? ==> from <= r.value && WordAt(t, r.value, w)
    ensures forall p :: from <= p && (r.None? || p < r.value) ==> !WordAt(t, p, w)
    decreases |t| - from
  {
    if WordAt(t, from, w) then Some(from)
    else if from == |t| then None
    else FindWord(t, w, from + 1)
  }

  /** `/w/i.test(t)`. */
  predicate HasWord(t: string, w: string) {
    FindWord(t, w, 0).Some?
  }

  // ---------------------------------------------------------------------
  // esg_score: /ESG\s*(Score|Rating)?\s*[:\-]?\s*(\d+(?:\.\d+)?)/i

  /** `g[a..b]` is empty or one of the words Score and Rating. */
  predicate OptScoreWord(g: string, a: int, b: int) {
    a == b || (b == a + 5 && WordAt(g, a, "score")) || (b == a + 6 && WordAt(g, a, "rating"))
  }

  /** `g` is white space, an optional Score or Rating word at `a..b`, and
      a gap. */
  ghost predicate ScoreGapSplit(g: string, a: int, b: int) {
    0 <= a <= b <= |g| && AllSpace(g[..a]) && OptScoreWord(g, a, b) && IsGap(g[b..])
  }

  /** `g` is matched by `\s*(Score|Rating)?\s*[:\-]?\s*`. */
  ghost predicate IsScoreGap(g: string) {
    exists a, b :: ScoreGapSplit(g, a, b)
  }

  /** The regular expression matches from `p` with its number starting at
      `q`. */
  ghost predicate ScoreRegexMatch(t: string, p: int, q: int) {
    WordAt(t, p, "esg") && p + 3 <= q < |t| && IsScoreGap(t[p + 3..q]) && IsDigit(t[q])
  }

  /** End of the optional Score or Rating word that starts at `j`. */
  function ScoreWordEnd(t: string, j: nat): (w: nat)
    requires j <= |t|
    ensures j <= w <= |t| && OptScoreWord(t, j, w)
  {
    if WordAt(t, j, "score") then j + 5 else if WordAt(t, j, "rating") then j + 6 else j
  }

  /** Where the score's digits must start after an "ESG" that ends at `i`. */
  function ScoreDigitsStart(t: string, i: nat): (q: nat)
    requires i <= |t|
    ensures i <= q <= |t|
  {
    GapEnd(t, ScoreWordEnd(t, SkipSpaces(t, i)))
  }

  /** Neither word starts with a character that is not a letter. */
  lemma NoScoreWordAt(t: string, j: nat)
    requires j <= |t| && (j == |t| || !IsLetter(t[j]))
    ensures ScoreWordEnd(t, j) == j
  {
  }

  /** Every slice of white space is white space. */
  lemma AllSpaceSlice(s: string, i: int, j: int)
    requires AllSpace(s) && 0 <= i <= j <= |s|
    ensures AllSpace(s[i..j])
  {
    forall m | 0 <= m < j - i ensures IsSpace(s[i..j][m]) {
      assert s[i..j][m] == s[i + m];
    }
  }

  /** The split the scan finds is one the pattern accepts. */
  lemma ScoreDigitsStartSound(t: string, i: nat)
    requires i <= |t| && ScoreDigitsStart(t, i) < |t|
    ensures IsScoreGap(t[i..ScoreDigitsStart(t, i)])
  {
    var j := SkipSpaces(t, i);
    var w := ScoreWordEnd(t, j);
    var q := ScoreDigitsStart(t, i);
    GapIff(t, w, q);
    ScoreGapOnText(t, i, j, w, q);
  }

  /** White space on `i..j`, an optional word on `j..w` and a gap on `w..q`
      make `t[i..q]` a score gap. */
  lemma ScoreGapOnText(t: string, i: int, j: int, w: int, q: int)
    requires 0 <= i <= j <= w <= q <= |t|
    requires AllSpace(t[i..j]) && OptScoreWord(t, j, w) && IsGap(t[w..q])
    ensures IsScoreGap(t[i..q])
  {
    var g := t[i..q];
    assert g[..j - i] == t[i..j];
    OptScoreWordSlice(t, i, q, j, w);
    assert g[w - i..] == t[w..q];
    assert ScoreGapSplit(g, j - i, w - i);
  }

  /** The optional word on `j..w` is the optional word of the slice from
      `i`. */
  lemma OptScoreWordSlice(t: string, i: int, q: int, j: int, w: int)
    requires 0 <= i <= j <= w <= q <= |t| && OptScoreWord(t, j, w)
    ensures OptScoreWord(t[i..q], j - i, w - i)
  {
    WordAtSlice(t, i, q, j - i, "score");
    WordAtSlice(t, i, q, j - i, "rating");
  }

  /** A split with a Score or Rating word is the one the scan finds. */
  lemma ScoreGapWithWord(t: string, i: nat, q: nat, a: int, b: int)
    requires i <= q < |t| && IsDigit(t[q])
    requires ScoreGapSplit(t[i..q], a, b) && a < b
    ensures q == ScoreDigitsStart(t, i)
  {
    var g := t[i..q];
    var j := i + a;
    assert IsGap(t[i + b..q]) by { assert g[b..] == t[i + b..q]; }
    assert AllSpace(t[i..j]) by { assert t[i..j] == g[..a]; }
    WordAtSlice(t, i, q, a, "score");
    WordAtSlice(t, i, q, a, "rating");
    ScoreWordOnText(t, i, j, b - a, q);
  }

  /** `ScoreGapWithWord` stated on the text itself: white space from `i`
      to `j`, the word of length `n` at `j`, then a gap up to the digit at
      `q`. */
  lemma ScoreWordOnText(t: string, i: nat, j: nat, n: int, q: nat)
    requires i <= j && 5 <= n && j + n <= q < |t| && IsDigit(t[q])
    requires AllSpace(t[i..j])
    requires (n == 5 && WordAt(t, j, "score")) || (n == 6 && WordAt(t, j, "rating"))
    requires IsGap(t[j + n..q])
    ensures q == ScoreDigitsStart(t, i)
  {
    ScoreWordEndOf(t, j, n);
    SkipSpacesExact(t, i, j);
    GapEndsAt(t, j + n, q);
    DigitsStartFrom(t, i, j, j + n, q);
  }

  /** The three greedy steps of the scan, composed. */
  lemma DigitsStartFrom(t: string, i: nat, j: nat, w: nat, q: nat)
    requires i <= j <= w <= q <= |t|
    requires SkipSpaces(t, i) == j && ScoreWordEnd(t, j) == w && GapEnd(t, w) == q
    ensures ScoreDigitsStart(t, i) == q
  {
  }

  /** Where the Score or Rating word ends when one of them is at `j`; it
      starts with a letter, so no white space run reaches past it. */
  lemma ScoreWordEndOf(t: string, j: nat, n: int)
    requires (n == 5 && WordAt(t, j, "score")) || (n == 6 && WordAt(t, j, "rating"))
    ensures j < |t| && !IsSpace(t[j])
    ensures ScoreWordEnd(t, j) == j + n
  {
    if n == 6 {
      WordAtChar(t, j, "rating", 0);
      if WordAt(t, j, "score") {
        SameInitial(t, j, "score", "rating");
      }
    } else {
      WordAtChar(t, j, "score", 0);
    }
  }

  /** A split without a word is the one the scan finds. */
  lemma ScoreGapWithoutWord(t: string, i: nat, q: nat, a: int)
    requires i <= q < |t| && IsDigit(t[q])
    requires ScoreGapSplit(t[i..q], a, a)
    ensures q == ScoreDigitsStart(t, i)
  {
    var c, d := SpacesThenGap(t[i..q], a);
    PlainGapScan(t, i, q, c, d);
  }

  /** A plain gap before the digits is what the scan skips. */
  lemma PlainGapScan(t: string, i: nat, q: nat, c: int, d: int)
    requires i <= q < |t| && IsDigit(t[q]) && GapSplit(t[i..q], c, d)
    ensures q == ScoreDigitsStart(t, i)
  {
    var j := SkipSpaces(t, i);
    SkipSpacesStops(t, i, q);
    if j < q {
      assert t[i..q][j - i] == t[j];
      GapChars(t[i..q], c, d, j - i);
    }
    NoScoreWordAt(t, j);
    GapEndsAt(t, i, q);
    GapEndAfterSpaces(t, i);
    DigitsStartFrom(t, i, j, j, q);
  }

  /** Skipping white space first does not move the end of a gap. */
  lemma GapEndAfterSpaces(t: string, i: nat)
    requires i <= |t|
    ensures GapEnd(t, SkipSpaces(t, i)) == GapEnd(t, i)
  {
    var j := SkipSpaces(t, i);
    SkipSpacesExact(t, j, j);
  }

  /** White space followed by a gap is a gap. */
  lemma SpacesThenGap(g: string, a: int) returns (c: int, d: int)
    requires 0 <= a <= |g| && AllSpace(g[..a]) && IsGap(g[a..])
    ensures GapSplit(g, c, d)
  {
    var c0, d0 :| GapSplit(g[a..], c0, d0);
    c, d := a + c0, a + d0;
    forall m | 0 <= m < c ensures IsSpace(g[..c][m]) {
      if m < a {
        assert g[..c][m] == g[..a][m];
      } else {
        assert g[..c][m] == g[a..][..c0][m - a];
      }
    }
    assert g[d..] == g[a..][d0..];
  }

  /** The scan decides the score pattern: the digits follow an
      `\s*(Score|Rating)?\s*[:\-]?\s*` iff they start where the scan says. */
  lemma ScoreDigitsStartIff(t: string, i: nat, q: nat)
    requires i <= q < |t| && IsDigit(t[q])
    ensures IsScoreGap(t[i..q]) <==> q == ScoreDigitsStart(t, i)
  {
    if q == ScoreDigitsStart(t, i) {
      ScoreDigitsStartSound(t, i);
    }
    if IsScoreGap(t[i..q]) {
      var a, b :| ScoreGapSplit(t[i..q], a, b);
      if a < b {
        ScoreGapWithWord(t, i, q, a, b);
      } else {
        ScoreGapWithoutWord(t, i, q, a);
      }
    }
  }

  /** End of the digit run that starts at `i`. */
  function DigitRunEnd(t: string, i: nat): (j: nat)
    requires i <= |t|
    ensures i <= j <= |t| && AllDigits(t[i..j])
    ensures j == |t| || !IsDigit(t[j])
    decreases |t| - i
  {
    if i < |t| && IsDigit(t[i]) then
      var j := DigitRunEnd(t, i + 1);
      assert t[i..j] == [t[i]] + t[i + 1..j];
      j
    else i
  }

  /** The numeral `\d+(?:\.\d+)?` that greedy matching takes at `q`. */
  function NumeralAt(t: string, q: nat): (n: Decimal)
    requires q < |t| && IsDigit(t[q])
    ensures n.Valid() && OccursAt(t, n.Text(), q)
    ensures q + |n.whole| == |t| || !IsDigit(t[q + |n.whole|])
    ensures n.fraction == [] ==> !(q + |n.whole| + 1 < |t| && t[q + |n.whole|] == '.' && IsDigit(t[q + |n.whole| + 1]))
    ensures n.fraction != [] ==> (q + |n.Text()| == |t| || !IsDigit(t[q + |n.Text()|]))
  {
    var d := DigitRunEnd(t, q);
    if d + 1 < |t| && t[d] == '.' && IsDigit(t[d + 1]) then
      var f := DigitRunEnd(t, d + 1);
      FractionNumeral(t, q, d, f);
      Decimal(t[q..d], t[d + 1..f])
    else
      WholeNumeral(t, q, d);
      Decimal(t[q..d], [])
  }

  /** A digit run `q..d` without a fraction is the numeral at `q`. */
  lemma WholeNumeral(t: string, q: nat, d: nat)
    requires q < d <= |t| && AllDigits(t[q..d]) && (d == |t| || !IsDigit(t[d]))
    ensures var n := Decimal(t[q..d], []);
      n.Valid() && OccursAt(t, n.Text(), q) && q + |n.whole| == d
  {
  }

  /** Digit runs `q..d` and `d + 1..f` around a point form the numeral at
      `q`, and it ends at `f`. */
  lemma FractionNumeral(t: string, q: nat, d: nat, f: nat)
    requires q < d && d + 1 < f <= |t| && t[d] == '.'
    requires AllDigits(t[q..d]) && AllDigits(t[d + 1..f])
    ensures var n := Decimal(t[q..d], t[d + 1..f]);
      n.Valid() && OccursAt(t, n.Text(), q) && q + |n.whole| == d && q + |n.Text()| == f
  {
    DecimalText(t, q, d, f);
  }

  /** The digits before and after the point at `d` spell `t[q..f]`. */
  lemma DecimalText(t: string, q: int, d: int, f: int)
    requires 0 <= q <= d && d + 1 < f <= |t| && t[d] == '.'
    ensures Decimal(t[q..d], t[d + 1..f]).Text() == t[q..f]
  {
    assert t[q..f] == t[q..d] + "." + t[d + 1..f];
  }

  /** Where the score's digits start, when the regular expression matches
      from `p`. */
  function ScoreMatchAt(t: string, p: nat): (r: Option<nat>)
    requires p <= |t|
    ensures r.Some? <==> exists q :: ScoreRegexMatch(t, p, q)
    ensures r.Some? ==> ScoreRegexMatch(t, p, r.value)
    ensures forall q :: ScoreRegexMatch(t, p, q) ==> r == Some(q)
  {
    if WordAt(t, p, "esg") then
      var q := ScoreDigitsStart(t, p + 3);
      ScoreMatchOnlyAt(t, p);
      if q < |t| && IsDigit(t[q]) then Some(q) else None
    else None
  }

  /** After an "ESG" at `p` the pattern can match only with its digits at
      `ScoreDigitsStart`, and it does when a digit stands there. */
  lemma ScoreMatchOnlyAt(t: string, p: nat)
    requires p <= |t| && WordAt(t, p, "esg")
    ensures forall q :: ScoreRegexMatch(t, p, q) <==>
              q == ScoreDigitsStart(t, p + 3) && q < |t| && IsDigit(t[q])
  {
    forall q | p + 3 <= q < |t| && IsDigit(t[q])
      ensures ScoreRegexMatch(t, p, q) <==> q == ScoreDigitsStart(t, p + 3)
    {
      ScoreDigitsStartIff(t, p + 3, q);
    }
  }

  /** The first index at or after `from` whose entry is present, with that
      entry: how a regular-expression search tries each start in turn. */
  function FirstPresent(ms: seq<Option<nat>>, from: nat): (r: Option<(nat, nat)>)
    requires from <= |ms|
    ensures r.Some? ==> from <= r.value.0 < |ms| && ms[r.value.0] == Some(r.value.1)
    ensures forall p :: from <= p < |ms| && (r.None? || p < r.value.0) ==> ms[p].None?
    decreases |ms| - from
  {
    if from == |ms| then None
    else match ms[from]
      case Some(k) => Some((from, k))
      case None => FirstPresent(ms, from + 1)
  }

  /** The leftmost start at or after `from` where the score pattern matches,
      with the start of its digits. */
  function ScoreSearch(t: string, from: nat): (r: Option<(nat, nat)>)
    requires from <= |t|
    ensures r.Some? ==> from <= r.value.0 <= |t| && ScoreMatchAt(t, r.value.0) == Some(r.value.1)
    ensures forall p :: from <= p <= |t| && (r.None? || p < r.value.0) ==> ScoreMatchAt(t, p).None?
  {
    FirstPresent(ScoreMatches(t), from)
  }

  /** The score pattern's match, if any, from every start `0..|t|`. */
  function ScoreMatches(t: string): (ms: seq<Option<nat>>)
    ensures |ms| == |t| + 1 && forall p :: 0 <= p <= |t| ==> ms[p] == ScoreMatchAt(t, p)
  {
    seq(|t| + 1, p requires 0 <= p <= |t| => ScoreMatchAt(t, p))
  }

  /** `esg_score`: the numeral of the leftmost match. */
  function EsgScore(t: string): (r: Option<Decimal>)
    ensures r.Some? ==> r.value.Valid()
  {
    match ScoreSearch(t, 0)
    case None => None
    case Some((p, q)) => Some(NumeralAt(t, q))
  }

  /** `esg_score` is set iff the pattern matches somewhere, and then it is
      the numeral at the leftmost match, whose digits start right after the
      optional Score/Rating, white space and separator. */
  lemma EsgScoreIsLeftmostMatch(t: string)
    ensures EsgScore(t).None? <==> forall p, q :: !ScoreRegexMatch(t, p, q)
    ensures EsgScore(t).Some? ==>
      exists p, q :: ScoreRegexMatch(t, p, q) && EsgScore(t) == Some(NumeralAt(t, q))
        && forall p', q' :: ScoreRegexMatch(t, p', q') ==> p < p' || (p == p' && q == q')
  {
    match ScoreSearch(t, 0)
    case None =>
      forall p, q ensures !ScoreRegexMatch(t, p, q) {
        if 0 <= p <= |t| {
          assert ScoreMatchAt(t, p).None?;
        }
      }
    case Some((p, q)) =>
      assert ScoreRegexMatch(t, p, q);
      forall p', q' | ScoreRegexMatch(t, p', q') ensures p < p' || (p == p' && q == q') {
        assert ScoreMatchAt(t, p').Some?;
      }
  }

  // ---------------------------------------------------------------------
  // company: /(Company|Organization|Firm|Entity)\s*[:\-]?\s*([A-Za-z0-9 &.,'-]+)/i
  // metrics: /Metrics\s*[:\-]?\s*([A-Za-z, ]+)/i

  /** The character classes of the two capture groups. */
  datatype Capture = CompanyName | MetricsList

  predicate InClass(cls: Capture, c: char) {
    match cls
    case CompanyName => IsLetter(c) || IsDigit(c) || c == ' ' || c == '&' || c == '.' || c == ',' || c == '\'' || c == '-'
    case MetricsList => IsLetter(c) || c == ',' || c == ' '
  }

  /** The label alternatives, lower-cased. */
  function Labels(cls: Capture): (ls: seq<string>)
    ensures DistinctInitials(ls)
  {
    match cls
    case CompanyName => ["company", "organization", "firm", "entity"]
    case MetricsList => ["metrics"]
  }

  /** The labels are non-empty and no two of them share a first letter, so
      at most one of them matches at any index. */
  predicate DistinctInitials(ls: seq<string>) {
    (forall i :: 0 <= i < |ls| ==> ls[i] != []) &&
    forall i, j :: 0 <= i < |ls| && 0 <= j < |ls| && ls[i][0] == ls[j][0] ==> i == j
  }

  /** The first of the alternatives `ls[i..]` that matches at `p`, by its
      index: the order in which the engine tries an alternation. */
  function FirstLabel(t: string, ls: seq<string>, p: int, i: nat): (r: Option<nat>)
    requires i <= |ls|
    ensures r.Some? ==> i <= r.value < |ls| && WordAt(t, p, ls[r.value])
    ensures r.None? ==> forall j :: i <= j < |ls| ==> !WordAt(t, p, ls[j])
    decreases |ls| - i
  {
    if i == |ls| then None
    else if WordAt(t, p, ls[i]) then Some(i)
    else FirstLabel(t, ls, p, i + 1)
  }

  /** Two labels that both match at one index are the same label. */
  lemma LabelsExclusive(t: string, ls: seq<string>, p: int, i: int, j: int)
    requires DistinctInitials(ls) && 0 <= i < |ls| && 0 <= j < |ls|
    requires WordAt(t, p, ls[i]) && WordAt(t, p, ls[j])
    ensures i == j
  {
    SameInitial(t, p, ls[i], ls[j]);
  }

  /** Two non-empty words that both match at one index start alike. */
  lemma SameInitial(t: string, p: int, u: string, v: string)
    requires WordAt(t, p, u) && WordAt(t, p, v) && u != [] && v != []
    ensures u[0] == v[0]
  {
    WordAtChar(t, p, u, 0);
    WordAtChar(t, p, v, 0);
  }

  /** The word `w` matches at `p`, a gap follows it, and the capture group
      starts at `k`. */
  ghost predicate SplitAfterWord(t: string, cls: Capture, p: int, w: string, k: int) {
    WordAt(t, p, w) && p + |w| <= k < |t| && IsGap(t[p + |w|..k]) && InClass(cls, t[k])
  }

  /** The regular expression with the label alternatives `ls` matches from
      `p` with its capture group starting at `k`. */
  ghost predicate CaptureRegexMatch(t: string, ls: seq<string>, cls: Capture, p: int, k: int) {
    exists i :: 0 <= i < |ls| && SplitAfterWord(t, cls, p, ls[i], k)
  }

  /** The last index in `e..k` whose character belongs to the class. */
  function LastInClass(t: string, cls: Capture, e: nat, k: nat): (r: Option<nat>)
    requires e <= k <= |t|
    ensures r.Some? ==> e <= r.value <= k && r.value < |t| && InClass(cls, t[r.value])
    ensures forall j :: e <= j <= k && j < |t| && InClass(cls, t[j]) ==> r.Some? && j <= r.value
    decreases k - e
  {
    if k < |t| && InClass(cls, t[k]) then Some(k)
    else if k == e then None
    else LastInClass(t, cls, e, k - 1)
  }

  /** Where the capture group starts when the pattern matches from `p`:
      backtracking tries the shorter gaps from the longest down, so the
      group starts at the last class character the gap can reach. */
  function CaptureMatchAt(t: string, ls: seq<string>, cls: Capture, p: nat): (r: Option<nat>)
    requires p <= |t|
    ensures r.Some? ==> p <= r.value < |t|
  {
    match FirstLabel(t, ls, p, 0)
    case None => None
    case Some(i) =>
      var e := p + |ls[i]|;
      LastInClass(t, cls, e, GapEnd(t, e))
  }

  /** `CaptureMatchAt` is the pattern's match from `p`: it exists iff some
      split matches, and it is the latest capture start of all splits. */
  lemma CaptureMatchAtSpec(t: string, ls: seq<string>, cls: Capture, p: nat)
    requires p <= |t| && DistinctInitials(ls)
    ensures CaptureMatchAt(t, ls, cls, p).Some? <==> exists k :: CaptureRegexMatch(t, ls, cls, p, k)
    ensures CaptureMatchAt(t, ls, cls, p).Some? ==>
              CaptureRegexMatch(t, ls, cls, p, CaptureMatchAt(t, ls, cls, p).value)
    ensures forall k :: CaptureRegexMatch(t, ls, cls, p, k) ==>
              CaptureMatchAt(t, ls, cls, p).Some? && k <= CaptureMatchAt(t, ls, cls, p).value
  {
    forall k | CaptureRegexMatch(t, ls, cls, p, k)
      ensures CaptureMatchAt(t, ls, cls, p).Some? && k <= CaptureMatchAt(t, ls, cls, p).value
    {
      CaptureMatchAtLatest(t, ls, cls, p, k);
    }
    CaptureMatchAtSound(t, ls, cls, p);
  }

  /** The scan's capture start is one the pattern accepts. */
  lemma CaptureMatchAtSound(t: string, ls: seq<string>, cls: Capture, p: nat)
    requires p <= |t|
    ensures CaptureMatchAt(t, ls, cls, p).Some? ==> CaptureRegexMatch(t, ls, cls, p, CaptureMatchAt(t, ls, cls, p).value)
  {
    match FirstLabel(t, ls, p, 0)
    case None =>
    case Some(i) =>
      var r := CaptureMatchAt(t, ls, cls, p);
      if r.Some? {
        AfterWordWithinGap(t, cls, p, ls[i], r.value);
      }
  }

  /** A class character that the gap after the word `w` at `p` reaches
      starts a capture there. */
  lemma AfterWordWithinGap(t: string, cls: Capture, p: int, w: string, k: int)
    requires WordAt(t, p, w) && p + |w| <= k < |t| && k <= GapEnd(t, p + |w|) && InClass(cls, t[k])
    ensures SplitAfterWord(t, cls, p, w, k)
  {
    GapIff(t, p + |w|, k);
  }

  /** No split of the pattern from `p` starts its capture later than the
      scan's. */
  lemma CaptureMatchAtLatest(t: string, ls: seq<string>, cls: Capture, p: nat, k: int)
    requires p <= |t| && DistinctInitials(ls) && CaptureRegexMatch(t, ls, cls, p, k)
    ensures CaptureMatchAt(t, ls, cls, p).Some? && k <= CaptureMatchAt(t, ls, cls, p).value
  {
    var i :| 0 <= i < |ls| && SplitAfterWord(t, cls, p, ls[i], k);
    LatestWithLabel(t, ls, cls, p, i, k);
  }

  /** The same, for the split that uses label alternative `i`. */
  lemma LatestWithLabel(t: string, ls: seq<string>, cls: Capture, p: nat, i: int, k: int)
    requires p <= |t| && DistinctInitials(ls) && 0 <= i < |ls| && SplitAfterWord(t, cls, p, ls[i], k)
    ensures CaptureMatchAt(t, ls, cls, p).Some? && k <= CaptureMatchAt(t, ls, cls, p).value
  {
    LabelAtMatching(t, ls, p, i);
    var w := ls[i];
    LatestAfterWord(t, cls, p, w, k);
    assert CaptureMatchAt(t, ls, cls, p) == LastInClass(t, cls, p + |w|, GapEnd(t, p + |w|));
  }

  /** After the label `w`, a capture start the pattern accepts is at or
      before the scan's. */
  lemma LatestAfterWord(t: string, cls: Capture, p: nat, w: string, k: int)
    requires SplitAfterWord(t, cls, p, w, k)
    ensures p + |w| <= |t|
    ensures LastInClass(t, cls, p + |w|, GapEnd(t, p + |w|)).Some?
    ensures k <= LastInClass(t, cls, p + |w|, GapEnd(t, p + |w|)).value
  {
    var e := p + |w|;
    GapIff(t, e, k);
    LastInClassReaches(t, cls, e, GapEnd(t, e), k);
  }

  /** A class character in `e..g` is at or before the last one. */
  lemma LastInClassReaches(t: string, cls: Capture, e: nat, g: nat, k: nat)
    requires e <= k <= g <= |t| && k < |t| && InClass(cls, t[k])
    ensures LastInClass(t, cls, e, g).Some? && k <= LastInClass(t, cls, e, g).value
  {
  }

  /** The label that matches at `p` is the one the alternation picks. */
  lemma LabelAtMatching(t: string, ls: seq<string>, p: int, i: int)
    requires DistinctInitials(ls) && 0 <= i < |ls| && WordAt(t, p, ls[i])
    ensures FirstLabel(t, ls, p, 0) == Some(i)
  {
    var r := FirstLabel(t, ls, p, 0);
    if r.Some? {
      LabelsExclusive(t, ls, p, i, r.value);
    }
  }

  /** The leftmost start at or after `from` where the pattern matches, with
      the start of its capture group. */
  function CaptureSearch(t: string, ls: seq<string>, cls: Capture, from: nat): (r: Option<(nat, nat)>)
    requires from <= |t|
    ensures r.Some? ==> from <= r.value.0 <= |t| && CaptureMatchAt(t, ls, cls, r.value.0) == Some(r.value.1)
    ensures forall p :: from <= p <= |t| && (r.None? || p < r.value.0) ==> CaptureMatchAt(t, ls, cls, p).None?
  {
    FirstPresent(CaptureMatches(t, ls, cls), from)
  }

  /** The pattern's capture start, if any, from every start `0..|t|`. */
  function CaptureMatches(t: string, ls: seq<string>, cls: Capture): (ms: seq<Option<nat>>)
    ensures |ms| == |t| + 1 && forall p :: 0 <= p <= |t| ==> ms[p] == CaptureMatchAt(t, ls, cls, p)
  {
    seq(|t| + 1, p requires 0 <= p <= |t| => CaptureMatchAt(t, ls, cls, p))
  }

  /** End of the run of class characters that starts at `k` (greedy `+`). */
  function ClassRunEnd(t: string, cls: Capture, k: nat): (j: nat)
    requires k <= |t|
    ensures k <= j <= |t|
    ensures forall m :: k <= m < j ==> InClass(cls, t[m])
    ensures j == |t| || !InClass(cls, t[j])
    decreases |t| - k
  {
    if k < |t| && InClass(cls, t[k]) then ClassRunEnd(t, cls, k + 1) else k
  }

  /** The capture group of the leftmost match, trimmed. */
  function Captured(t: string, cls: Capture): (r: Option<string>)
    ensures r.Some? ==> forall m :: 0 <= m < |r.value| ==> InClass(cls, r.value[m])
    ensures r.Some? ==> r.value == [] || (r.value[0] != ' ' && r.value[|r.value| - 1] != ' ')
  {
    match CaptureSearch(t, Labels(cls), cls, 0)
    case None => None
    case Some((p, k)) =>
      var group := t[k..ClassRunEnd(t, cls, k)];
      TrimInClass(group, cls);
      Some(Trim(group))
  }

  /** Trimming keeps only characters of the string. */
  lemma TrimInClass(s: string, cls: Capture)
    requires forall m :: 0 <= m < |s| ==> InClass(cls, s[m])
    ensures forall m :: 0 <= m < |Trim(s)| ==> InClass(cls, Trim(s)[m])
  {
    forall m | 0 <= m < |Trim(s)| ensures InClass(cls, Trim(s)[m]) {
      TrimChars(s, m);
    }
  }

  /** The capture is the trimmed class run at the leftmost match, and the
      field is unset exactly when the pattern matches nowhere. */
  lemma CapturedIsLeftmostMatch(t: string, cls: Capture)
    ensures Captured(t, cls).None? <==> forall p, k :: !CaptureRegexMatch(t, Labels(cls), cls, p, k)
    ensures Captured(t, cls).Some? ==>
      exists p, k :: CaptureRegexMatch(t, Labels(cls), cls, p, k)
        && Captured(t, cls) == Some(Trim(t[k..ClassRunEnd(t, cls, k)]))
        && forall p', k' :: CaptureRegexMatch(t, Labels(cls), cls, p', k') ==> p < p' || (p == p' && k' <= k)
  {
    var ls := Labels(cls);
    match CaptureSearch(t, ls, cls, 0)
    case None =>
      NoCaptureMatch(t, ls, cls);
    case Some((p, k)) =>
      CaptureSearchLeftmost(t, ls, cls, p, k);
      assert Captured(t, cls) == Some(Trim(t[k..ClassRunEnd(t, cls, k)]));
  }

  /** Where the search finds nothing, the pattern matches nowhere. */
  lemma NoCaptureMatch(t: string, ls: seq<string>, cls: Capture)
    requires DistinctInitials(ls) && CaptureSearch(t, ls, cls, 0).None?
    ensures forall p, k :: !CaptureRegexMatch(t, ls, cls, p, k)
  {
    forall p, k | CaptureRegexMatch(t, ls, cls, p, k) ensures false {
      var i :| 0 <= i < |ls| && SplitAfterWord(t, cls, p, ls[i], k);
      CaptureMatchAtLatest(t, ls, cls, p, k);
    }
  }

  /** The search's result is a match, and no match starts earlier or, at
      the same start, captures later. */
  lemma CaptureSearchLeftmost(t: string, ls: seq<string>, cls: Capture, p: nat, k: nat)
    requires DistinctInitials(ls) && CaptureSearch(t, ls, cls, 0) == Some((p, k))
    ensures CaptureRegexMatch(t, ls, cls, p, k)
    ensures forall p', k' :: CaptureRegexMatch(t, ls, cls, p', k') ==> p < p' || (p == p' && k' <= k)
  {
    CaptureMatchAtSound(t, ls, cls, p);
    forall p', k' | CaptureRegexMatch(t, ls, cls, p', k') ensures p < p' || (p == p' && k' <= k) {
      var i :| 0 <= i < |ls| && SplitAfterWord(t, cls, p', ls[i], k');
      CaptureMatchAtLatest(t, ls, cls, p', k');
    }
  }

  /** `company`. */
  function Company(t: string): Option<string> {
    Captured(t, CompanyName)
  }

  /** `metrics`: the three category words anywhere win over a Metrics line. */
  function Metrics(t: string): (r: Option<string>)
    ensures HasWord(t, "environment") && HasWord(t, "social") && HasWord(t, "governance")
      ==> r == Some("Environment, Social, Governance")
    ensures !(HasWord(t, "environment") && HasWord(t, "social") && HasWord(t, "governance"))
      ==> r == Captured(t, MetricsList)
  {
    if HasWord(t, "environment") && HasWord(t, "social") && HasWord(t, "governance") then
      Some("Environment, Social, Governance")
    else
      Captured(t, MetricsList)
  }

  // ---------------------------------------------------------------------
  // year: /(Year|Report Year|Reporting Year)?\s*[:\-]?\s*(20\d{2}|19\d{2})/i

  /** A `19dd` or `20dd` token starts at `q`. */
  predicate YearAt(t: string, q: int) {
    0 <= q && q + 4 <= |t|
    && ((t[q] == '2' && t[q + 1] == '0') || (t[q] == '1' && t[q + 1] == '9'))
    && IsDigit(t[q + 2]) && IsDigit(t[q + 3])
  }

  /** `g[..a]` is empty or one of the labels Year, Report Year and
      Reporting Year. */
  predicate OptYearLabel(g: string, a: int) {
    a == 0 || (a == 4 && WordAt(g, 0, "year")) || (a == 11 && WordAt(g, 0, "report year"))
    || (a == 14 && WordAt(g, 0, "reporting year"))
  }

  /** The regular expression matches from `p` with its year at `q`. */
  ghost predicate YearRegexMatch(t: string, p: int, q: int) {
    0 <= p <= q && YearAt(t, q) && exists a :: YearPrefixSplit(t[p..q], a)
  }

  /** `g` is an optional Year label of length `a` followed by a gap. */
  ghost predicate YearPrefixSplit(g: string, a: int) {
    0 <= a <= |g| && OptYearLabel(g, a) && IsGap(g[a..])
  }

  /** The first year token at or after `from`. */
  function FirstYear(t: string, from: nat): (r: Option<nat>)
    requires from <= |t|
    ensures r.Some? ==> from <= r.value && YearAt(t, r.value)
    ensures forall q :: from <= q && (r.None? || q < r.value) ==> !YearAt(t, q)
    decreases |t| - from
  {
    if YearAt(t, from) then Some(from)
    else if from == |t| then None
    else FirstYear(t, from + 1)
  }

  /** The value of the year token at `q`. */
  function YearValue(t: string, q: nat): (v: int)
    requires YearAt(t, q)
    ensures 1900 <= v <= 2099
  {
    var s := t[q..q + 4];
    FourDigitsValue(s);
    DigitsValue(s)
  }

  /** The value of four decimal digits. */
  lemma FourDigitsValue(s: string)
    requires |s| == 4 && AllDigits(s)
    ensures DigitsValue(s) == 1000 * DigitValue(s[0]) + 100 * DigitValue(s[1]) + 10 * DigitValue(s[2]) + DigitValue(s[3])
  {
    var s3, s2, s1 := s[..3], s[..3][..2], s[..3][..2][..1];
    assert s1[..0] == [];
    assert DigitsValue(s1) == DigitValue(s[0]);
    assert DigitsValue(s2) == 10 * DigitValue(s[0]) + DigitValue(s[1]);
    assert DigitsValue(s3) == 100 * DigitValue(s[0]) + 10 * DigitValue(s[1]) + DigitValue(s[2]);
  }

  /** `year`. */
  function Year(t: string): (r: Option<int>)
    ensures r.Some? ==> 1900 <= r.value <= 2099
  {
    match FirstYear(t, 0)
    case None => None
    case Some(q) => Some(YearValue(t, q))
  }

  /** A label is letters and spaces: it holds no digit. */
  lemma YearLabelHasNoDigit(g: string, a: int, k: int)
    requires OptYearLabel(g, a) && 0 <= k < a
    ensures !IsDigit(g[k])
  {
    YearLabelsHaveNoDigit();
    if a == 4 {
      WordAtNoDigit(g, 0, "year", k);
    } else if a == 11 {
      WordAtNoDigit(g, 0, "report year", k);
    } else {
      WordAtNoDigit(g, 0, "reporting year", k);
    }
  }

  lemma YearLabelsHaveNoDigit()
    ensures NoDigit("year") && NoDigit("report year") && NoDigit("reporting year")
  {
  }

  predicate NoDigit(w: string) {
    forall m :: 0 <= m < |w| ==> !IsDigit(w[m])
  }

  /** Text that matches a digit-free word holds no digit there. */
  lemma WordAtNoDigit(t: string, i: int, w: string, k: int)
    requires WordAt(t, i, w) && NoDigit(w) && 0 <= k < |w|
    ensures !IsDigit(t[i + k])
  {
    WordAtChar(t, i, w, k);
  }


  /** The optional label does not change which year is taken: the year of
      the leftmost match is the first `19dd`/`20dd` token in the text,
      even one inside a longer run of digits. */
  lemma YearIsFirstToken(t: string)
    ensures Year(t).None? <==> forall p, q :: !YearRegexMatch(t, p, q)
    ensures Year(t).Some? ==> exists q0 ::
      YearRegexMatch(t, q0, q0) && Year(t) == Some(YearValue(t, q0))
      && forall p, q :: YearRegexMatch(t, p, q) ==> q0 <= q && (p <= q0 ==> q == q0)
  {
    match FirstYear(t, 0)
    case None =>
    case Some(q0) =>
      assert GapSplit(t[q0..q0][0..], 0, 0);
      assert YearPrefixSplit(t[q0..q0], 0);
      assert YearRegexMatch(t, q0, q0);
      forall p, q | YearRegexMatch(t, p, q) ensures q0 <= q && (p <= q0 ==> q == q0) {
        if p <= q0 && q0 < q {
          var g := t[p..q];
          var a :| YearPrefixSplit(g, a);
          assert IsDigit(g[q0 - p]);
          if q0 - p < a {
            YearLabelHasNoDigit(g, a, q0 - p);
          } else {
            assert g[a..][q0 - p - a] == g[q0 - p];
            GapHasNoDigit(g[a..], q0 - p - a);
          }
        }
      }
  }

  // ---------------------------------------------------------------------
  // summary: /(Summary|Overview)\s*[:\-]?\s*([\s\S]{0,500})/i, then the
  // first line, trimmed; otherwise /ESG[\s\S]{0,500}/i with newlines made
  // spaces, cut to 200 characters

  /** Length of the Summary or Overview label at `p`, if any. */
  function SummaryLabelAt(t: string, p: nat): (r: Option<nat>)
    ensures r.Some? ==> p + r.value <= |t|
  {
    if WordAt(t, p, "summary") then Some(7) else if WordAt(t, p, "overview") then Some(8) else None
  }

  /** The position of the leftmost Summary or Overview label at or after
      `from`. */
  function SummaryLabel(t: string, from: nat): (r: Option<nat>)
    requires from <= |t|
    ensures r.Some? ==> from <= r.value && SummaryLabelAt(t, r.value).Some?
    ensures forall p :: from <= p && (r.None? || p < r.value) ==> SummaryLabelAt(t, p).None?
    decreases |t| - from
  {
    if SummaryLabelAt(t, from).Some? then Some(from)
    else if from == |t| then None
    else SummaryLabel(t, from + 1)
  }

  /** `summary`: a Summary or Overview label anywhere takes precedence,
      and then the leftmost one supplies the text after its gap; otherwise
      the text from the first "ESG"; otherwise nothing. */
  function Summary(t: string): (r: Option<string>)
    ensures r.Some? ==> '\n' !in r.value && |r.value| <= 500
  {
    var found := SummaryLabel(t, 0);
    if found.Some? then LabelledBranch(t, found.value) else UnlabelledBranch(t)
  }

  /** The summary when the leftmost label is at `p`. */
  function LabelledBranch(t: string, p: nat): (r: Option<string>)
    requires SummaryLabel(t, 0) == Some(p)
    ensures r.Some? && '\n' !in r.value && |r.value| <= 500
  {
    Some(LabelledSummary(t, GapEnd(t, p + SummaryLabelAt(t, p).value)))
  }

  /** The summary when there is no label. */
  function UnlabelledBranch(t: string): (r: Option<string>)
    requires SummaryLabel(t, 0).None?
    ensures r.Some? ==> '\n' !in r.value && |r.value| <= 200
  {
    var esg := FindWord(t, "esg", 0);
    if esg.Some? then Some(FallbackSummary(t, esg.value)) else None
  }

  /** The leftmost label supplies the summary: the labelled text after
      its gap. */
  lemma LabelledIsSummary(t: string, p: nat)
    requires SummaryLabel(t, 0) == Some(p)
    ensures SummaryLabelAt(t, p).Some?
    ensures Summary(t) == Some(LabelledSummary(t, GapEnd(t, p + SummaryLabelAt(t, p).value)))
  {
    assert Summary(t) == LabelledBranch(t, p);
  }

  /** A label anywhere is found by the leftmost search, at or before it. */
  lemma LabelFound(t: string, q: nat)
    requires SummaryLabelAt(t, q).Some?
    ensures SummaryLabel(t, 0).Some? && SummaryLabel(t, 0).value <= q
  {
    assert SummaryLabel(t, 0).None? ==> SummaryLabelAt(t, q).None?;
  }

  /** With no label, the first "ESG" supplies the summary. */
  lemma SummaryFromEsg(t: string)
    requires forall p: nat :: SummaryLabelAt(t, p).None?
    requires exists p: nat :: WordAt(t, p, "esg")
    ensures exists p: nat ::
      && WordAt(t, p, "esg")
      && (forall p': nat :: p' < p ==> !WordAt(t, p', "esg"))
      && Summary(t) == Some(FallbackSummary(t, p))
  {
    assert SummaryLabel(t, 0).None?;
    assert FindWord(t, "esg", 0).Some?;
    assert Summary(t) == UnlabelledBranch(t);
  }

  /** With neither a label nor "ESG", there is no summary. */
  lemma SummaryAbsent(t: string)
    requires forall p: nat :: SummaryLabelAt(t, p).None?
    requires forall p: nat :: !WordAt(t, p, "esg")
    ensures Summary(t).None?
  {
    assert SummaryLabel(t, 0).None?;
    assert FindWord(t, "esg", 0).None?;
  }

  function Min(a: int, b: int): int { if a <= b then a else b }

  /** The labelled summary whose text starts at `e`: of the next 500
      characters (fewer at the end of the text), the part before the first
      newline, trimmed. */
  function LabelledSummary(t: string, e: nat): (r: string)
    requires e <= |t|
    ensures '\n' !in r && |r| <= 500
  {
    var line := BeforeFirst(t[e..Min(e + 500, |t|)], '\n');
    TrimInside(line, '\n');
    Trim(line)
  }

  /** The labelled summary is the trimmed slice of the text from `e` up to
      the first newline or the end of the 500-character window. */
  lemma LabelledSummaryFirstLine(t: string, e: nat)
    requires e <= |t|
    ensures exists n :: e <= n <= Min(e + 500, |t|) && '\n' !in t[e..n]
              && (n == Min(e + 500, |t|) || t[n] == '\n') && LabelledSummary(t, e) == Trim(t[e..n])
  {
    WindowLine(t, e, Min(e + 500, |t|));
  }

  /** The first line of the window `t[e..end]` is a slice of the text that
      stops at a newline or at the window's end. */
  lemma WindowLine(t: string, e: nat, end: nat)
    requires e <= end <= |t|
    ensures var n := e + |BeforeFirst(t[e..end], '\n')|;
      n <= end && BeforeFirst(t[e..end], '\n') == t[e..n] && '\n' !in t[e..n]
      && (n == end || t[n] == '\n')
  {
    var group := t[e..end];
    var i := FindChar(group, '\n');
    assert BeforeFirst(group, '\n') == group[..i] == t[e..e + i];
    assert e + i < end ==> t[e + i] == group[i];
  }

  /** The fallback summary for an "ESG" at `p`: the "ESG" and up to 500
      characters after it, every newline turned into a space, cut to 200
      characters. */
  function FallbackSummary(t: string, p: nat): (r: string)
    requires WordAt(t, p, "esg")
    ensures '\n' !in r && |r| <= 200 && WordAt(r, 0, "esg")
  {
    var section := t[p..Min(p + 503, |t|)];
    var replaced := ReplaceChar(section, '\n', ' ');
    var r := Take(replaced, 200);
    EsgPrefixKept(t, p, section, r);
    assert '\n' !in r by {
      forall k | 0 <= k < |r| ensures r[k] != '\n' {
        assert r[k] == replaced[k];
      }
    }
    r
  }

  /** Character by character, the fallback summary is the text from the
      "ESG" on, with newlines made spaces, for min(200, 503) characters or
      up to the end of the text. */
  lemma FallbackSummaryChars(t: string, p: nat)
    requires WordAt(t, p, "esg")
    ensures |FallbackSummary(t, p)| == Min(200, Min(503, |t| - p))
    ensures forall k :: 0 <= k < |FallbackSummary(t, p)| ==>
      FallbackSummary(t, p)[k] == (if t[p + k] == '\n' then ' ' else t[p + k])
  {
    var section := t[p..Min(p + 503, |t|)];
    var replaced := ReplaceChar(section, '\n', ' ');
    var r := FallbackSummary(t, p);
    assert r == Take(replaced, 200);
    forall k | 0 <= k < |r| ensures r[k] == (if t[p + k] == '\n' then ' ' else t[p + k]) {
      assert r[k] == replaced[k] && section[k] == t[p + k];
    }
  }

  /** Replacing newlines and cutting at 200 keeps the leading "ESG". */
  lemma EsgPrefixKept(t: string, p: nat, section: string, r: string)
    requires WordAt(t, p, "esg") && p + 3 <= |t|
    requires section == t[p..Min(p + 503, |t|)]
    requires r == Take(ReplaceChar(section, '\n', ' '), 200)
    ensures WordAt(r, 0, "esg")
  {
    WordAtSlice(t, p, Min(p + 503, |t|), 0, "esg");
    WordAtChar(section, 0, "esg", 0);
    WordAtChar(section, 0, "esg", 1);
    WordAtChar(section, 0, "esg", 2);
    assert r[..3] == section[..3];
    assert WordAt(r, 0, "esg") <==> WordAt(section, 0, "esg") by {
      assert r[0] == section[0] && r[1] == section[1] && r[2] == section[2];
    }
  }

  /** Without a label the summary starts at the first "ESG", and its
      newline becomes a space. */
  lemma SummaryFallbackExample()
    ensures Summary("x ESG\nab") == Some("ESG ab")
  {
    var t := "x ESG\nab";
    NoLabelExample(t);
    assert !WordAt(t, 0, "esg") && !WordAt(t, 1, "esg") && WordAt(t, 2, "esg");
    assert FindWord(t, "esg", 0) == Some(2);
    FallbackExampleText(t);
    var r := FallbackSummary(t, 2);
    assert Summary(t) == Some(r);
  }

  lemma NoLabelExample(t: string)
    requires t == "x ESG\nab"
    ensures SummaryLabel(t, 0).None?
  {
    forall p: nat ensures SummaryLabelAt(t, p).None? {
      if WordAt(t, p, "summary") {
        WordAtChar(t, p, "summary", 0);
      }
      if WordAt(t, p, "overview") {
        WordAtChar(t, p, "overview", 0);
      }
    }
  }

  lemma FallbackExampleText(t: string)
    requires t == "x ESG\nab" && WordAt(t, 2, "esg")
    ensures FallbackSummary(t, 2) == "ESG ab"
  {
    FallbackSummaryChars(t, 2);
    var r := FallbackSummary(t, 2);
    assert |r| == 6;
    assert r[0] == t[2] && r[1] == t[3] && r[2] == t[4] && r[3] == ' ' && r[4] == t[6] && r[5] == t[7];
  }

  /** A labelled summary keeps only its first line, after the gap. */
  lemma SummaryLabelExample()
    ensures Summary("Summary: ok\nNext") == Some("ok")
  {
    var t := "Summary: ok\nNext";
    assert WordAt(t, 0, "summary");
    assert SummaryLabel(t, 0) == Some(0);
    LabelExampleGap(t);
    LabelExampleLine(t);
  }

  lemma LabelExampleGap(t: string)
    requires t == "Summary: ok\nNext"
    ensures GapEnd(t, 7) == 9
  {
    assert SkipSpaces(t, 7) == 7;
    assert SkipSpaces(t, 9) == 9;
    assert SkipSpaces(t, 8) == 9;
  }

  lemma LabelExampleLine(t: string)
    requires t == "Summary: ok\nNext"
    ensures LabelledSummary(t, 9) == "ok"
  {
    assert Min(9 + 500, |t|) == |t|;
    var g := t[9..|t|];
    assert g == "ok\nNext";
    FirstLineOk(g);
    TrimTrimmed("ok");
  }

  lemma FirstLineOk(g: string)
    requires g == "ok\nNext"
    ensures BeforeFirst(g, '\n') == "ok"
  {
    assert g[1..][1..] == g[2..] && g[2] == '\n';
    assert FindChar(g[2..], '\n') == 0;
    assert FindChar(g[1..], '\n') == 1;
    assert FindChar(g, '\n') == 2;
  }

  /** The summary's capture starts after the longest gap that follows the
      label. */
  lemma GapEndIsLongest(t: string, e: nat)
    requires e <= |t|
    ensures GapFrom(t, e, GapEnd(t, e))
    ensures forall pos :: GapEnd(t, e) < pos <= |t| ==> !GapFrom(t, e, pos)
  {
    var g := GapEnd(t, e);
    GapIff(t, e, g);
    forall pos | g < pos <= |t| ensures !GapFrom(t, e, pos) {
      GapIff(t, e, pos);
    }
  }

  // ---------------------------------------------------------------------
  // The whole record

  /** The extraction block of the upload handler. */
  function Extract(t: string): (r: Record)
    ensures r.year.Some? ==> 1900 <= r.year.value <= 2099
  {
    Record(EsgScore(t), Company(t), Year(t), Metrics(t), Summary(t))
  }

  /** Text without any match, the empty text first of all, gives a record
      with every field unset. */
  lemma ExtractEmpty()
    ensures Extract("") == Record(None, None, None, None, None)
  {
    assert ScoreSearch("", 0).None?;
    assert CaptureSearch("", Labels(CompanyName), CompanyName, 0).None?;
    assert CaptureSearch("", Labels(MetricsList), MetricsList, 0).None?;
    assert !HasWord("", "environment");
  }

  /** "ESG: 70" gives the score 70: the colon and the space form the gap. */
  lemma ScoreExample()
    ensures EsgScore("ESG: 70") == Some(Decimal("70", ""))
    ensures Decimal("70", "").Value() == 70.0
  {
    var t := "ESG: 70";
    assert WordAt(t, 0, "esg");
    assert SkipSpaces(t, 3) == 3;
    NoScoreWordAt(t, 3);
    assert SkipSpaces(t, 4) == 5;
    assert GapEnd(t, 3) == 5;
    assert ScoreMatchAt(t, 0) == Some(5);
    assert ScoreSearch(t, 0) == Some((0, 5));
    SeventyAt(t);
  }

  /** The numeral at the end of "ESG: 70" is 70. */
  lemma SeventyAt(t: string)
    requires t == "ESG: 70"
    ensures NumeralAt(t, 5) == Decimal("70", "") && Decimal("70", "").Value() == 70.0
  {
    assert DigitRunEnd(t, 5) == 7;
    assert t[5..7] == "70";
    assert "70"[..1] == "7";
  }

  /** An earlier copyright year wins over a later labelled report year. */
  lemma YearExample()
    ensures Year("(c) 1998. Report Year 2024") == Some(1998)
  {
    var t := "(c) 1998. Report Year 2024";
    assert YearAt(t, 4);
    assert !YearAt(t, 0) && !YearAt(t, 1) && !YearAt(t, 2) && !YearAt(t, 3);
    assert FirstYear(t, 0) == Some(4);
    FourDigitsValue(t[4..8]);
  }

  // ---------------------------------------------------------------------
  // GET /api/global-search

  /** What the search endpoint does with its `q` parameter. */
  datatype SearchPlan = NoQuery | Query(pattern: string)

  /** A missing query or one shorter than two characters answers with no
      results and queries nothing; any other query is looked up in all five
      tables with the one ILIKE pattern `%q%`. */
  function GlobalSearchPlan(q: Option<string>): (r: SearchPlan)
    ensures r.NoQuery? <==> q.None? || |q.value| < 2
    ensures r.Query? ==> |r.pattern| == |q.value| + 2 && OccursAt(r.pattern, q.value, 1)
    ensures r.Query? ==> r.pattern[0] == '%' && r.pattern[|r.pattern| - 1] == '%'
  {
    if q.None? || |q.value| < 2 then NoQuery else Query("%" + q.value + "%")
  }
}
