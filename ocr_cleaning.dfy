/**
 * The text clean-up in `ocr_image` (auto_essay_grader.py:360-376): strip the recognised text,
 * strip every line, drop the blank ones, and answer a fixed sentinel when what is left is
 * shorter than ten characters or the recognition raised.
 */
module OcrCleaning {
  import opened Options
  import opened Strings

  /** What `ocr_image` returns when it has nothing usable. */
  const Sentinel: string := "[图片识别失败]"

  /** Texts shorter than this are treated as a failed recognition. */
  const MinLength: nat := 10

  /** Alone on its line, a stripped piece of text: not empty, no whitespace at either end. */
  ghost predicate TidyLine(l: string) {
    l != [] && !IsSpace(l[0]) && !IsSpace(l[|l| - 1])
  }

  /** Every line is tidy. */
  ghost predicate AllTidy(lines: seq<string>) {
    forall k :: 0 <= k < |lines| ==> TidyLine(lines[k])
  }

  lemma StripKeepsNoBreak(s: string)
    requires NoBreak(s)
    ensures NoBreak(Strip(s))
  {
    var i, r := StripStart(s), Strip(s);
    StripSpec(s);
    SliceKeepsNoBreak(s, i, i + |r|);
  }

  lemma SliceKeepsNoBreak(s: string, a: nat, b: nat)
    requires a <= b <= |s| && NoBreak(s)
    ensures NoBreak(s[a..b])
  {
    forall k | 0 <= k < b - a
      ensures !IsLineBreak(s[a..b][k])
    {
      assert s[a..b][k] == s[a + k];
    }
  }

  /** `[line.strip() for line in lines if line.strip()]`. */
  function CleanLines(ls: seq<string>): (r: seq<string>)
    ensures forall k :: 0 <= k < |r| ==> TidyLine(r[k])
    ensures (forall k :: 0 <= k < |ls| ==> NoBreak(ls[k])) ==> forall k :: 0 <= k < |r| ==> NoBreak(r[k])
    ensures ConcatNonSpace(r) == ConcatNonSpace(ls)
  {
    if ls == [] then []
    else
      var l := Strip(ls[0]);
      var rest := CleanLines(ls[1..]);
      StripFacts(ls[0]);
      TidyStep(l, rest);
      BreakStep(l, rest, ls);
      ContentStep(l, rest, ls);
      if l != [] then [l] + rest else rest
  }

  /** What stripping one line guarantees. */
  lemma StripFacts(line: string)
    ensures var l := Strip(line);
      && NonSpace(l) == NonSpace(line)
      && (l != [] ==> TidyLine(l))
      && (NoBreak(line) ==> NoBreak(l))
  {
    StripKeepsNonSpace(line);
    StripEnds(line);
    if NoBreak(line) {
      StripKeepsNoBreak(line);
    }
  }

  lemma TidyStep(l: string, rest: seq<string>)
    requires l != [] ==> TidyLine(l)
    requires forall k :: 0 <= k < |rest| ==> TidyLine(rest[k])
    ensures l != [] ==> forall k :: 0 <= k < |[l] + rest| ==> TidyLine(([l] + rest)[k])
  {
    if l != [] {
      forall k | 0 <= k < |[l] + rest| ensures TidyLine(([l] + rest)[k]) {
        if k > 0 {
          assert ([l] + rest)[k] == rest[k - 1];
        }
      }
    }
  }

  lemma BreakStep(l: string, rest: seq<string>, ls: seq<string>)
    requires ls != [] && (NoBreak(ls[0]) ==> NoBreak(l))
    requires (forall k :: 0 <= k < |ls[1..]| ==> NoBreak(ls[1..][k])) ==> forall k :: 0 <= k < |rest| ==> NoBreak(rest[k])
    ensures (forall k :: 0 <= k < |ls| ==> NoBreak(ls[k])) ==>
      var r := if l != [] then [l] + rest else rest;
      forall k :: 0 <= k < |r| ==> NoBreak(r[k])
  {
    if forall k :: 0 <= k < |ls| ==> NoBreak(ls[k]) {
      assert forall k :: 0 <= k < |ls[1..]| ==> NoBreak(ls[1..][k]) by {
        forall k | 0 <= k < |ls[1..]| ensures NoBreak(ls[1..][k]) {
          assert ls[1..][k] == ls[k + 1];
        }
      }
      if l != [] {
        forall k | 0 <= k < |[l] + rest| ensures NoBreak(([l] + rest)[k]) {
          if k > 0 {
            assert ([l] + rest)[k] == rest[k - 1];
          }
        }
      }
    }
  }

  lemma ContentStep(l: string, rest: seq<string>, ls: seq<string>)
    requires ls != [] && NonSpace(l) == NonSpace(ls[0])
    requires ConcatNonSpace(rest) == ConcatNonSpace(ls[1..])
    ensures ConcatNonSpace(if l != [] then [l] + rest else rest) == ConcatNonSpace(ls)
  {
    if l != [] {
      assert ([l] + rest)[0] == l && ([l] + rest)[1..] == rest;
    }
  }

  /** A single line is kept, stripped, exactly when it is not blank. */
  lemma CleanLinesOfOne(l: string)
    ensures CleanLines([l]) == if Strip(l) == [] then [] else [Strip(l)]
  {
    assert [l][1..] == [];
  }

  /**
   * Cleaning two runs of lines one after the other is cleaning their concatenation; with
   * `CleanLinesOfOne`, every non-blank line is kept, stripped, on its own and in order.
   */
  lemma {:induction false} CleanLinesAppend(a: seq<string>, b: seq<string>)
    ensures CleanLines(a + b) == CleanLines(a) + CleanLines(b)
  {
    if a == [] {
      assert a + b == b;
    } else {
      assert (a + b)[0] == a[0] && (a + b)[1..] == a[1..] + b;
      CleanLinesAppend(a[1..], b);
    }
  }

  /** Stripping a tidy line leaves it as it is. */
  lemma StripOfTidy(l: string)
    requires TidyLine(l)
    ensures Strip(l) == l
  {
    var i, r := StripStart(l), Strip(l);
    StripSpec(l);
    assert i == 0 && |r| == |l|;
  }

  /** Tidy lines come through cleaning unchanged. */
  lemma {:induction false} CleanLinesOfTidy(ls: seq<string>)
    requires forall k :: 0 <= k < |ls| ==> TidyLine(ls[k])
    ensures CleanLines(ls) == ls
  {
    if ls != [] {
      StripOfTidy(ls[0]);
      assert forall k :: 0 <= k < |ls[1..]| ==> ls[1..][k] == ls[k + 1];
      CleanLinesOfTidy(ls[1..]);
      assert [ls[0]] + ls[1..] == ls;
    }
  }

  /**
   * Text that is already clean (tidy lines joined by newlines) is left exactly as it is, so in
   * particular spaces inside a line are kept; at ten characters or more it passes the test.
   */
  lemma CleanTextOfClean(ls: seq<string>)
    requires ls != []
    requires forall k :: 0 <= k < |ls| ==> TidyLine(ls[k]) && NoBreak(ls[k])
    ensures CleanText(JoinLines(ls)) == JoinLines(ls)
    ensures MinLength <= |JoinLines(ls)| ==> OcrText(JoinLines(ls)) == JoinLines(ls)
  {
    var t := JoinLines(ls);
    JoinLinesEnds(ls);
    var last := ls[|ls| - 1];
    assert t[0] == ls[0][0];
    assert t[|t| - 1] == t[|t| - |last|..][|last| - 1] == last[|last| - 1];
    StripOfTidy(t);
    SplitJoin(ls);
    CleanLinesOfTidy(ls);
  }

  /** The cleaned text before the length test (auto_essay_grader.py:367-369). */
  function CleanText(raw: string): string {
    JoinLines(CleanLines(SplitLines(Strip(raw))))
  }

  /** `ocr_image` after recognition produced `raw` (auto_essay_grader.py:367-373). */
  function OcrText(raw: string): (r: string)
    ensures r == Sentinel <==> |CleanText(raw)| < MinLength
    ensures r != Sentinel ==> r == CleanText(raw)
  {
    var text := CleanText(raw);
    if |text| == 0 || |text| < MinLength then Sentinel else text
  }

  /** `ocr_image`; `None` stands for an exception from opening the image or from recognition. */
  function OcrImage(recognized: Option<string>): string {
    match recognized
    case None => Sentinel
    case Some(raw) => OcrText(raw)
  }

  /**
   * `ocr_image` always returns a text: the sentinel, or a cleaned text of at least ten
   * characters whose lines are all tidy and whose visible characters are those recognised.
   */
  lemma OcrImageSpec(recognized: Option<string>)
    ensures var r := OcrImage(recognized);
      && (recognized.None? ==> r == Sentinel)
      && (r == Sentinel || (MinLength <= |r| && AllTidy(SplitLines(r))))
      && (recognized.Some? && r != Sentinel ==> NonSpace(r) == NonSpace(recognized.value))
  {
    if recognized.Some? && OcrImage(recognized) != Sentinel {
      CleanTextIsTidy(recognized.value);
      CleanTextKeepsContent(recognized.value);
    }
  }

  /** Every line of a text that passed the test is non-empty with no whitespace at either end. */
  lemma CleanTextIsTidy(raw: string)
    requires OcrText(raw) != Sentinel
    ensures AllTidy(SplitLines(OcrText(raw)))
  {
    PassedTextHasLines(raw);
    CleanLinesHaveNoBreak(Strip(raw));
    TidyJoin(OcrText(raw), CleanLines(SplitLines(Strip(raw))));
  }

  lemma TidyJoin(t: string, ls: seq<string>)
    requires ls != [] && t == JoinLines(ls)
    requires forall k :: 0 <= k < |ls| ==> NoBreak(ls[k]) && TidyLine(ls[k])
    ensures AllTidy(SplitLines(t))
  {
    SplitJoin(ls);
  }

  lemma PassedTextHasLines(raw: string)
    requires OcrText(raw) != Sentinel
    ensures var ls := CleanLines(SplitLines(Strip(raw)));
      ls != [] && OcrText(raw) == JoinLines(ls)
  {
    var ls := CleanLines(SplitLines(Strip(raw)));
    assert OcrText(raw) == JoinLines(ls);
  }

  lemma CleanLinesHaveNoBreak(s: string)
    ensures var ls := CleanLines(SplitLines(s));
      forall k :: 0 <= k < |ls| ==> NoBreak(ls[k])
  {
  }

  /** Cleaning removes only whitespace: every visible character survives, in order. */
  lemma CleanTextKeepsContent(raw: string)
    ensures NonSpace(CleanText(raw)) == NonSpace(raw)
  {
    var lines := SplitLines(Strip(raw));
    JoinLinesKeepsNonSpace(CleanLines(lines));
    SplitLinesKeepsNonSpace(Strip(raw));
    StripKeepsNonSpace(raw);
  }

  /** A text made only of whitespace is a failed recognition. */
  lemma BlankIsFailure(raw: string)
    requires AllSpace(raw)
    ensures OcrText(raw) == Sentinel
  {
    var ls := CleanLines(SplitLines(Strip(raw)));
    CleanTextKeepsContent(raw);
    NonSpaceOfSpaces(raw);
    JoinLinesKeepsNonSpace(ls);
    NoTidyLineIsBlank(ls);
  }

  lemma NoTidyLineIsBlank(ls: seq<string>)
    requires forall k :: 0 <= k < |ls| ==> TidyLine(ls[k])
    ensures ConcatNonSpace(ls) == [] ==> ls == []
  {
    if ls != [] {
      assert NonSpace(ls[0]) != [];
    }
  }
}
