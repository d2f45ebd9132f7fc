/**
 * The handful of Python string operations the essay grading program relies on, stated over `seq<char>`:
 * `str.isspace`, `str.strip`, `str.splitlines`, `"\n".join`, `str.replace`, ASCII `str.lower`,
 * `str(int)` and `int(digits)`.
 */
module Strings {

  /** Python's `str.isspace()` characters. */
  predicate IsSpace(c: char) {
    || '\t' <= c <= '\r'           // tab, line feed, vertical tab, form feed, carriage return
    || '\U{1C}' <= c <= ' '         // the four separators U+001C..U+001F and space
    || c == '\U{85}' || c == '\U{A0}' || c == '\U{1680}'
    || '\U{2000}' <= c <= '\U{200A}'
    || c == '\U{2028}' || c == '\U{2029}' || c == '\U{202F}' || c == '\U{205F}' || c == '\U{3000}'
  }

  /** The characters at which Python's `str.splitlines()` breaks a line. */
  predicate IsLineBreak(c: char) {
    || '\n' <= c <= '\r'           // line feed, vertical tab, form feed, carriage return
    || '\U{1C}' <= c <= '\U{1E}'   // file, group and record separators
    || c == '\U{85}' || c == '\U{2028}' || c == '\U{2029}'
  }

  predicate IsDigit(c: char) {
    '0' <= c <= '9'
  }

  ghost predicate AllSpace(s: string) {
    forall k :: 0 <= k < |s| ==> IsSpace(s[k])
  }

  ghost predicate NoBreak(s: string) {
    forall k :: 0 <= k < |s| ==> !IsLineBreak(s[k])
  }

  predicate AllDigits(s: string) {
    forall k :: 0 <= k < |s| ==> IsDigit(s[k])
  }

  predicate StartsWith(s: string, prefix: string) {
    |prefix| <= |s| && s[..|prefix|] == prefix
  }

  predicate EndsWith(s: string, suffix: string) {
    |suffix| <= |s| && s[|s| - |suffix|..] == suffix
  }

  /** Whether `pat` occurs in `s` starting at index `k`. */
  predicate OccursAt(s: string, pat: string, k: int) {
    0 <= k <= |s| - |pat| && s[k..k + |pat|] == pat
  }

  /** Whether `pat` occurs anywhere in `s` (Python's `pat in s`). */
  ghost predicate Contains(s: string, pat: string) {
    exists k :: OccursAt(s, pat, k)
  }

  // ---------------------------------------------------------------------------
  // strip

  /** `str.lstrip()`. */
  function LStrip(s: string): string {
    if s != [] && IsSpace(s[0]) then LStrip(s[1..]) else s
  }

  /** `lstrip` leaves the suffix after the leading whitespace. */
  lemma {:induction false} LStripSpec(s: string)
    ensures var r := LStrip(s);
      && |r| <= |s| && r == s[|s| - |r|..]
      && AllSpace(s[..|s| - |r|])
      && (r == [] || !IsSpace(r[0]))
  {
    if s != [] && IsSpace(s[0]) {
      LStripSpec(s[1..]);
      LStripStep(s, LStrip(s[1..]));
    } else {
      assert s[..0] == [];
    }
  }

  lemma LStripStep(s: string, r: string)
    requires s != [] && IsSpace(s[0]) && |r| <= |s| - 1
    requires r == s[1..][|s| - 1 - |r|..] && AllSpace(s[1..][..|s| - 1 - |r|])
    ensures r == s[|s| - |r|..] && AllSpace(s[..|s| - |r|])
  {
    var n := |s| - |r|;
    forall k | 0 <= k < n ensures IsSpace(s[..n][k]) {
      if k > 0 {
        assert s[..n][k] == s[1..][..n - 1][k - 1];
      }
    }
  }

  /** `str.rstrip()`. */
  function RStrip(s: string): string {
    if s != [] && IsSpace(s[|s| - 1]) then RStrip(s[..|s| - 1]) else s
  }

  /** `rstrip` leaves the prefix before the trailing whitespace. */
  lemma {:induction false} RStripSpec(s: string)
    ensures var r := RStrip(s);
      && |r| <= |s| && r == s[..|r|]
      && AllSpace(s[|r|..])
      && (r == [] || !IsSpace(r[|r| - 1]))
  {
    if s != [] && IsSpace(s[|s| - 1]) {
      RStripSpec(s[..|s| - 1]);
      RStripStep(s, RStrip(s[..|s| - 1]));
    } else {
      assert s[|s|..] == [];
    }
  }

  lemma RStripStep(s: string, r: string)
    requires s != [] && IsSpace(s[|s| - 1]) && |r| <= |s| - 1
    requires r == s[..|s| - 1][..|r|] && AllSpace(s[..|s| - 1][|r|..])
    ensures r == s[..|r|] && AllSpace(s[|r|..])
  {
    var n := |r|;
    forall k | 0 <= k < |s| - n ensures IsSpace(s[n..][k]) {
      if n + k < |s| - 1 {
        assert s[n..][k] == s[..|s| - 1][n..][k];
      }
    }
  }

  /** Where the stripped text starts inside `s`. */
  function StripStart(s: string): (i: nat)
    ensures i <= |s|
  {
    LStripSpec(s);
    |s| - |LStrip(s)|
  }

  /** `str.strip()`. */
  function Strip(s: string): string {
    RStrip(LStrip(s))
  }

  /**
   * `s` is whitespace, then the stripped text, then whitespace; the stripped text neither
   * starts nor ends with whitespace.
   */
  lemma StripSpec(s: string)
    ensures var i, r := StripStart(s), Strip(s);
      && i + |r| <= |s| && r == s[i..i + |r|]
      && s == s[..i] + r + s[i + |r|..]
      && AllSpace(s[..i]) && AllSpace(s[i + |r|..])
      && (r == [] || (!IsSpace(r[0]) && !IsSpace(r[|r| - 1])))
  {
    var i, l := StripStart(s), LStrip(s);
    var r := RStrip(l);
    LStripSpec(s);
    RStripSpec(l);
    SuffixParts(s, l, |r|);
    StripEnds(s);
  }

  /** A suffix `l` of `s`, cut at `n`, splits `s` into three consecutive slices. */
  lemma SuffixParts(s: string, l: string, n: nat)
    requires |l| <= |s| && l == s[|s| - |l|..] && n <= |l|
    ensures var i := |s| - |l|;
      && l[..n] == s[i..i + n] && l[n..] == s[i + n..]
      && s == s[..i] + l[..n] + s[i + n..]
  {
    var i := |s| - |l|;
    assert s == s[..i] + s[i..i + n] + s[i + n..];
  }

  /** The stripped text neither starts nor ends with whitespace. */
  lemma StripEnds(s: string)
    ensures var r := Strip(s); r == [] || (!IsSpace(r[0]) && !IsSpace(r[|r| - 1]))
  {
    var l := LStrip(s);
    var r := RStrip(l);
    LStripSpec(s);
    RStripSpec(l);
    if r != [] {
      assert r[0] == l[0];
    }
  }

  // ---------------------------------------------------------------------------
  // the non-whitespace content of a string

  /** The characters of `s` that are not whitespace, in order. */
  function NonSpace(s: string): string {
    if s == [] then [] else (if IsSpace(s[0]) then [] else [s[0]]) + NonSpace(s[1..])
  }

  lemma {:induction false} NonSpaceAppend(a: string, b: string)
    ensures NonSpace(a + b) == NonSpace(a) + NonSpace(b)
  {
    if a == [] {
      assert a + b == b;
    } else {
      assert (a + b)[1..] == a[1..] + b;
      NonSpaceAppend(a[1..], b);
    }
  }

  lemma {:induction false} NonSpaceOfSpaces(s: string)
    requires AllSpace(s)
    ensures NonSpace(s) == []
  {
    if s != [] {
      NonSpaceOfSpaces(s[1..]);
    }
  }

  /** Stripping removes only whitespace. */
  lemma StripKeepsNonSpace(s: string)
    ensures NonSpace(Strip(s)) == NonSpace(s)
  {
    var i, r := StripStart(s), Strip(s);
    StripSpec(s);
    NonSpaceAppend(s[..i] + r, s[i + |r|..]);
    NonSpaceAppend(s[..i], r);
    NonSpaceOfSpaces(s[..i]);
    NonSpaceOfSpaces(s[i + |r|..]);
  }

  /** The non-whitespace characters of every line, concatenated. */
  function ConcatNonSpace(ls: seq<string>): string {
    if ls == [] then [] else NonSpace(ls[0]) + ConcatNonSpace(ls[1..])
  }

  // ---------------------------------------------------------------------------
  // splitlines and join

  /**
   * `str.splitlines()`, breaking at every line-break character. Python additionally treats
   * "\r\n" as one break and omits the empty piece after a final break; both differences are
   * empty lines only.
   */
  function SplitLines(s: string): (r: seq<string>)
    ensures |r| >= 1
    ensures forall k :: 0 <= k < |r| ==> NoBreak(r[k])
  {
    if s == [] then [[]]
    else
      var rest := SplitLines(s[1..]);
      if IsLineBreak(s[0]) then [[]] + rest
      else
        assert NoBreak([s[0]] + rest[0]);
        [[s[0]] + rest[0]] + rest[1..]
  }

  /** `"\n".join(ls)`. */
  function JoinLines(ls: seq<string>): string {
    if |ls| == 0 then []
    else if |ls| == 1 then ls[0]
    else ls[0] + "\n" + JoinLines(ls[1..])
  }

  /** The join starts with the first line and ends with the last one. */
  lemma {:induction false} JoinLinesEnds(ls: seq<string>)
    requires |ls| >= 1
    ensures StartsWith(JoinLines(ls), ls[0]) && EndsWith(JoinLines(ls), ls[|ls| - 1])
  {
    if |ls| > 1 {
      JoinLinesEnds(ls[1..]);
      var t := JoinLines(ls[1..]);
      assert JoinLines(ls) == ls[0] + ("\n" + t);
      assert ls[1..][|ls[1..]| - 1] == ls[|ls| - 1];
      assert JoinLines(ls)[|JoinLines(ls)| - |t|..] == t;
    }
  }

  /** Splitting into lines drops only line breaks, which are whitespace. */
  lemma {:induction false} SplitLinesKeepsNonSpace(s: string)
    ensures ConcatNonSpace(SplitLines(s)) == NonSpace(s)
  {
    if s != [] {
      var rest := SplitLines(s[1..]);
      SplitLinesKeepsNonSpace(s[1..]);
      if IsLineBreak(s[0]) {
        assert ([[]] + rest)[1..] == rest;
      } else {
        var r := [[s[0]] + rest[0]] + rest[1..];
        assert r[1..] == rest[1..];
        NonSpaceAppend([s[0]], rest[0]);
        assert [s[0]][1..] == [];
        assert ConcatNonSpace(rest) == NonSpace(rest[0]) + ConcatNonSpace(rest[1..]);
      }
    }
  }

  /** Joining with newlines adds only whitespace. */
  lemma {:induction false} JoinLinesKeepsNonSpace(ls: seq<string>)
    ensures NonSpace(JoinLines(ls)) == ConcatNonSpace(ls)
  {
    if |ls| == 1 {
      assert ls[1..] == [];
    } else if |ls| > 1 {
      JoinLinesKeepsNonSpace(ls[1..]);
      NonSpaceAppend(ls[0] + "\n", JoinLines(ls[1..]));
      NonSpaceAppend(ls[0], "\n");
    }
  }

  lemma {:induction false} SplitLinesOfLine(l: string)
    requires NoBreak(l)
    ensures SplitLines(l) == [l]
  {
    if l != [] {
      SplitLinesOfLine(l[1..]);
      assert [l[0]] + l[1..] == l;
    }
  }

  lemma {:induction false} SplitLinesAtBreak(l: string, t: string)
    requires NoBreak(l)
    ensures SplitLines(l + "\n" + t) == [l] + SplitLines(t)
  {
    if l == [] {
      assert l + "\n" + t == ['\n'] + t;
      assert (['\n'] + t)[1..] == t;
    } else {
      assert (l + "\n" + t)[1..] == l[1..] + "\n" + t;
      SplitLinesAtBreak(l[1..], t);
      assert [l[0]] + l[1..] == l;
    }
  }

  /** Lines without line breaks are recovered by splitting their join. */
  lemma {:induction false} SplitJoin(ls: seq<string>)
    requires |ls| >= 1
    requires forall k :: 0 <= k < |ls| ==> NoBreak(ls[k])
    ensures SplitLines(JoinLines(ls)) == ls
  {
    if |ls| == 1 {
      SplitLinesOfLine(ls[0]);
    } else {
      SplitJoin(ls[1..]);
      SplitLinesAtBreak(ls[0], JoinLines(ls[1..]));
    }
  }

  // ---------------------------------------------------------------------------
  // replace

  /**
   * Python's `s.replace(pat, rep)`: scan from the left, replace every occurrence of `pat`
   * that does not overlap an occurrence already replaced.
   */
  function Replace(s: string, pat: string, rep: string): string
    requires |pat| > 0
    decreases |s|
  {
    if |s| < |pat| then s
    else if s[..|pat|] == pat then rep + Replace(s[|pat|..], pat, rep)
    else [s[0]] + Replace(s[1..], pat, rep)
  }

  /** Replacing one character by another keeps the length and rewrites exactly that character. */
  lemma {:induction false} ReplaceCharAt(s: string, c: char, d: char)
    ensures |Replace(s, [c], [d])| == |s|
    ensures forall k :: 0 <= k < |s| ==> Replace(s, [c], [d])[k] == if s[k] == c then d else s[k]
  {
    if s != [] {
      ReplaceCharAt(s[1..], c, d);
      assert s[..1] == [s[0]];
    }
  }

  // ---------------------------------------------------------------------------
  // lower-case

  function LowerChar(c: char): char {
    if 'A' <= c <= 'Z' then (c as int + 32) as char else c
  }

  /** `str.lower()` on ASCII letters; other characters are kept. */
  function Lower(s: string): (r: string)
    ensures |r| == |s|
    ensures forall k :: 0 <= k < |s| ==> r[k] == LowerChar(s[k])
  {
    seq(|s|, k requires 0 <= k < |s| => LowerChar(s[k]))
  }

  // ---------------------------------------------------------------------------
  // decimal numerals

  function DigitChar(d: nat): (c: char)
    requires d < 10
    ensures IsDigit(c)
  {
    ('0' as int + d) as char
  }

  /** `str(n)` for a non-negative integer. */
  function NatToDecimal(n: nat): (r: string)
    ensures |r| >= 1 && AllDigits(r)
  {
    if n < 10 then [DigitChar(n)] else NatToDecimal(n / 10) + [DigitChar(n % 10)]
  }

  /** `int(ds)` for a run of ASCII digits (the empty run reads as 0). */
  function DecimalValue(ds: string): nat
    requires AllDigits(ds)
  {
    if ds == [] then 0 else DecimalValue(ds[..|ds| - 1]) * 10 + (ds[|ds| - 1] as int - '0' as int)
  }

  lemma {:induction false} DecimalRoundTrip(n: nat)
    ensures DecimalValue(NatToDecimal(n)) == n
  {
    if n >= 10 {
      var ds := NatToDecimal(n);
      assert ds[..|ds| - 1] == NatToDecimal(n / 10);
      DecimalRoundTrip(n / 10);
    }
  }

  /** The longest run of digits at the front of `s` (what a greedy `\d+` or `\d*` takes). */
  function LeadingDigits(s: string): (r: string)
    ensures |r| <= |s| && r == s[..|r|] && AllDigits(r)
    ensures |r| == |s| || !IsDigit(s[|r|])
  {
    if s != [] && IsDigit(s[0]) then [s[0]] + LeadingDigits(s[1..]) else []
  }

  lemma {:induction false} LeadingDigitsOf(ds: string, t: string)
    requires AllDigits(ds)
    requires t == [] || !IsDigit(t[0])
    ensures LeadingDigits(ds + t) == ds
  {
    if ds == [] {
      assert ds + t == t;
    } else {
      assert (ds + t)[1..] == ds[1..] + t;
      LeadingDigitsOf(ds[1..], t);
    }
  }
}
