/**
 * The text report `write_result_on_image` writes beside each marked image
 * (auto_essay_grader.py:497-516), and the search `_grading_done` runs over it for the two token
 * counts (auto_essay_grader.py:332-337): the first place where a marker is followed by optional
 * whitespace and a run of digits.
 */
module TokenReport {
  import opened Options
  import opened Strings

  const PromptMarker: string := "上传token数:"
  const CompletionMarker: string := "回复token数:"

  const OcrHeading: string := "【OCR识别内容】\n"
  const ResultHeading: string := "【AI批改内容】\n"
  const UsageHeading: string := "【API用量统计】\n"

  /** The two counts of the `usage` object; `None` where the attribute is absent. */
  datatype Usage = Usage(promptTokens: Option<nat>, completionTokens: Option<nat>)

  /** `marker` does not occur anywhere in `s`. */
  ghost predicate Absent(s: string, marker: string) {
    forall k :: !OccursAt(s, marker, k)
  }

  /** `marker\s*(\d+)` tried at position `k` alone. */
  function CountAt(s: string, marker: string, k: nat): (r: Option<nat>)
    ensures r.Some? ==> OccursAt(s, marker, k)
  {
    if !OccursAt(s, marker, k) then None
    else
      var ds := LeadingDigits(LStrip(s[k + |marker|..]));
      if ds == [] then None else Some(DecimalValue(ds))
  }

  /** `re.search(marker + r"\s*(\d+)", s)` from position `k`, as the captured number. */
  function FindCount(s: string, marker: string, k: nat): Option<nat>
    decreases |s| - k
  {
    if k > |s| then None
    else
      match CountAt(s, marker, k)
      case Some(n) => Some(n)
      case None => FindCount(s, marker, k + 1)
  }

  /** The count a report yields for `marker`, as `_grading_done` reads it. */
  function TokenCount(s: string, marker: string): Option<nat> {
    FindCount(s, marker, 0)
  }

  /** One `上传token数: n` or `回复token数: n` line, or nothing when the count is absent. */
  function CountLine(marker: string, n: Option<nat>): string {
    match n
    case None => ""
    case Some(v) => marker + " " + NatToDecimal(v) + "\n"
  }

  /** The usage block, written only when `usage` is truthy. */
  function UsageSection(usage: Option<Usage>): string {
    match usage
    case None => ""
    case Some(u) =>
      UsageHeading + CountLine(PromptMarker, u.promptTokens) + CountLine(CompletionMarker, u.completionTokens)
  }

  /** The body of the report (auto_essay_grader.py:503-516). */
  function Report(ocr: string, result: string, usage: Option<Usage>): string {
    OcrHeading + ocr + "\n\n" + ResultHeading + result + "\n\n" + UsageSection(usage)
  }

  /** What the file would be asked to hold as counts: those of truthy `usage`, else none. */
  function Written(usage: Option<Usage>, marker: string): Option<nat> {
    match usage
    case None => None
    case Some(u) => if marker == PromptMarker then u.promptTokens else u.completionTokens
  }

  // ---------------------------------------------------------------------------
  // report names

  /** `os.path.splitext(base)[0]`: cut at the last dot unless only dots precede it. */
  function Stem(base: string): (r: string)
    ensures |r| <= |base| && r == base[..|r|]
    ensures '.' in base[|r|..] ==> base[|r|] == '.'
    decreases |base|
  {
    var d := LastDot(base, |base|);
    if d.Some? && exists k :: 0 <= k < d.value && base[k] != '.' then base[..d.value] else base
  }

  /** The index of the last `.` in `s[..n]`. */
  function LastDot(s: string, n: nat): (r: Option<nat>)
    requires n <= |s|
    ensures r.Some? ==> r.value < n && s[r.value] == '.' && forall k :: r.value < k < n ==> s[k] != '.'
    ensures r.None? ==> forall k :: 0 <= k < n ==> s[k] != '.'
  {
    if n == 0 then None
    else if s[n - 1] == '.' then Some(n - 1)
    else LastDot(s, n - 1)
  }

  /** `os.path.basename(path)` (auto_essay_grader.py:494): what follows the last `/`. */
  function Basename(path: string): string
    decreases |path|
  {
    if path == [] || path[|path| - 1] == '/' then []
    else Basename(path[..|path| - 1]) + [path[|path| - 1]]
  }

  /** The base name is the longest suffix of the path without a `/`. */
  lemma {:induction false} BasenameSpec(path: string)
    ensures var b := Basename(path);
      && |b| <= |path| && path[|path| - |b|..] == b
      && '/' !in b
      && (|b| < |path| ==> path[|path| - |b| - 1] == '/')
    decreases |path|
  {
    if path != [] && path[|path| - 1] != '/' {
      var p, c := path[..|path| - 1], path[|path| - 1];
      BasenameSpec(p);
      var b := Basename(p);
      assert path == p + [c];
      assert Basename(path) == b + [c];
      assert path[|p| - |b|..] == p[|p| - |b|..] + [c];
      assert |b| < |p| ==> path[|p| - |b| - 1] == p[|p| - |b| - 1];
    }
  }

  /** A file name inside a directory has itself for base name, whatever the directory. */
  lemma BasenameOfJoin(dir: string, name: string)
    requires '/' !in name
    ensures Basename(dir + "/" + name) == name
  {
    var path := dir + "/" + name;
    BasenameSpec(path);
    var b := Basename(path);
    assert path[|path| - |name| - 1] == '/';
    assert path[|path| - |name|..] == name;
  }

  /** `os.path.splitext(base)[0] + ".txt"` (auto_essay_grader.py:497). */
  function ReportName(base: string): string {
    Stem(base) + ".txt"
  }

  /** A name `n.e`, `e` without dots and `n` not starting with one, has the stem `n`. */
  lemma StemSplits(n: string, e: string)
    requires n != [] && n[0] != '.' && '.' !in e
    ensures Stem(n + "." + e) == n
  {
    var base := n + "." + e;
    var d := LastDot(base, |base|);
    assert base[|n|] == '.';
    assert forall k :: |n| < k < |base| ==> base[k] == e[k - |n| - 1];
    assert d == Some(|n|);
    assert base[0] == n[0];
    assert base[..|n|] == n;
  }

  /** A name without a dot is its own stem. */
  lemma StemWithoutDot(base: string)
    requires '.' !in base
    ensures Stem(base) == base
  {
    assert LastDot(base, |base|).None?;
  }

  /** A name whose only dot leads it (`.png`) is its own stem. */
  lemma StemOfDotFile(e: string)
    requires '.' !in e
    ensures Stem("." + e) == "." + e
  {
    var base := "." + e;
    assert base[0] == '.';
    assert forall k :: 0 < k < |base| ==> base[k] == e[k - 1] && base[k] != '.';
    assert LastDot(base, |base|) == Some(0);
  }

  /** Two images differing only in their extension are given the same report name. */
  lemma ReportNamesCollide()
    ensures ReportName("a.png") == ReportName("a.jpg") == "a.txt"
  {
    StemSplits("a", "png");
    StemSplits("a", "jpg");
    assert "a" + "." + "png" == "a.png" && "a" + "." + "jpg" == "a.jpg";
  }

  /** The stem comes from the base name alone, so the folders of the images play no part. */
  lemma ReportNamesCollideAcrossFolders()
    ensures ReportName(Basename("/u/a.png")) == ReportName(Basename("/v/a.jpg")) == "a.txt"
  {
    assert "/u" + "/" + "a.png" == "/u/a.png";
    assert "/v" + "/" + "a.jpg" == "/v/a.jpg";
    BasenameOfJoin("/u", "a.png");
    BasenameOfJoin("/v", "a.jpg");
    ReportNamesCollide();
  }

  // ---------------------------------------------------------------------------
  // the search finds the leftmost place where the pattern matches

  /**
   * `FindCount` gives the count at the leftmost position from `k` where the marker is followed
   * by optional whitespace and digits, and none exactly when there is no such position.
   */
  lemma {:induction false} FindCountSpec(s: string, marker: string, k: nat)
    ensures var r := FindCount(s, marker, k);
      && (r.Some? ==> exists p: nat :: k <= p <= |s| && CountAt(s, marker, p) == r &&
                        forall q: nat :: k <= q < p ==> CountAt(s, marker, q).None?)
      && (r.None? <==> forall p: nat :: k <= p <= |s| ==> CountAt(s, marker, p).None?)
    decreases |s| - k
  {
    if k <= |s| {
      if CountAt(s, marker, k).Some? {
        assert CountAt(s, marker, k) == FindCount(s, marker, k);
      } else {
        FindCountSpec(s, marker, k + 1);
        assert FindCount(s, marker, k) == FindCount(s, marker, k + 1);
        if FindCount(s, marker, k).Some? {
          var p: nat :| k + 1 <= p <= |s| && CountAt(s, marker, p) == FindCount(s, marker, k + 1) &&
                         forall q: nat :: k + 1 <= q < p ==> CountAt(s, marker, q).None?;
          assert forall q: nat :: k <= q < p ==> CountAt(s, marker, q).None?;
        }
      }
    }
  }

  // ---------------------------------------------------------------------------
  // the search skips what cannot hold a marker

  lemma {:induction false} FindCountNone(s: string, marker: string, k: nat)
    requires Absent(s, marker)
    ensures FindCount(s, marker, k) == None
    decreases |s| - k
  {
    if k <= |s| {
      FindCountNone(s, marker, k + 1);
    }
  }

  lemma {:induction false} FindCountShift(a: string, b: string, marker: string, k: nat)
    ensures FindCount(a + b, marker, |a| + k) == FindCount(b, marker, k)
    decreases |b| - k
  {
    if k <= |b| {
      CountShift(a, b, marker, k);
      FindCountShift(a, b, marker, k + 1);
    }
  }

  lemma CountShift(a: string, b: string, marker: string, k: nat)
    requires k <= |b|
    ensures CountAt(a + b, marker, |a| + k) == CountAt(b, marker, k)
  {
    if k + |marker| <= |b| {
      assert (a + b)[|a| + k..|a| + k + |marker|] == b[k..k + |marker|];
      assert (a + b)[|a| + k + |marker|..] == b[k + |marker|..];
    }
  }

  lemma {:induction false} FindCountSkip(s: string, marker: string, k: nat, p: nat)
    requires k <= p <= |s|
    requires forall m :: k <= m < p ==> !OccursAt(s, marker, m)
    ensures FindCount(s, marker, k) == FindCount(s, marker, p)
    decreases p - k
  {
    if k < p {
      FindCountSkip(s, marker, k + 1, p);
    }
  }

  /** No occurrence of a one-line marker starts in `a` when `a` is free of it and ends a line. */
  lemma NoneStartsIn(a: string, b: string, marker: string)
    requires Absent(a, marker) && '\n' !in marker
    requires a != [] && a[|a| - 1] == '\n'
    ensures forall m :: 0 <= m < |a| ==> !OccursAt(a + b, marker, m)
  {
    forall m | 0 <= m < |a| ensures !OccursAt(a + b, marker, m) {
      if m + |marker| <= |a| {
        assert (a + b)[m..m + |marker|] == a[m..m + |marker|];
        assert !OccursAt(a, marker, m);
      } else if m + |marker| <= |a + b| {
        assert (a + b)[m..m + |marker|][|a| - 1 - m] == '\n';
      }
    }
  }

  /** A marker-free text that ends a line can be put before a report without changing its counts. */
  lemma SkipPrefix(a: string, b: string, marker: string)
    requires Absent(a, marker) && '\n' !in marker
    requires a != [] && a[|a| - 1] == '\n'
    ensures TokenCount(a + b, marker) == TokenCount(b, marker)
  {
    NoneStartsIn(a, b, marker);
    FindCountSkip(a + b, marker, 0, |a|);
    FindCountShift(a, b, marker, 0);
  }

  /** Joining two marker-free texts at a line break gives a marker-free text. */
  lemma AbsentJoin(a: string, b: string, marker: string)
    requires Absent(a, marker) && Absent(b, marker) && '\n' !in marker
    requires (a != [] && a[|a| - 1] == '\n') || (b != [] && b[0] == '\n')
    ensures Absent(a + b, marker)
  {
    forall m ensures !OccursAt(a + b, marker, m) {
      if 0 <= m && m + |marker| <= |a| {
        assert (a + b)[m..m + |marker|] == a[m..m + |marker|];
        assert !OccursAt(a, marker, m);
      } else if |a| <= m && m + |marker| <= |a + b| {
        assert (a + b)[m..m + |marker|] == b[m - |a|..m - |a| + |marker|];
        assert !OccursAt(b, marker, m - |a|);
      } else if 0 <= m < |a| && m + |marker| <= |a + b| {
        if a != [] && a[|a| - 1] == '\n' {
          assert (a + b)[m..m + |marker|][|a| - 1 - m] == '\n';
        } else {
          assert (a + b)[m..m + |marker|][|a| - m] == '\n';
        }
      }
    }
  }

  /** A text none of whose characters starts the marker holds no marker. */
  lemma AbsentByFirst(s: string, marker: string)
    requires marker != [] && marker[0] !in s
    ensures Absent(s, marker)
  {
    forall m ensures !OccursAt(s, marker, m) {
      if 0 <= m && m + |marker| <= |s| {
        assert s[m..m + |marker|][0] == s[m];
      }
    }
  }

  // ---------------------------------------------------------------------------
  // the count lines read back

  lemma LStripSpaceThenDigits(ds: string, t: string)
    requires ds != [] && AllDigits(ds)
    ensures LStrip(" " + ds + t) == ds + t
  {
    var s := " " + ds + t;
    assert s[1..] == ds + t;
    assert !IsSpace(ds[0]);
    LStripNoLead(ds + t);
  }

  lemma LStripNoLead(s: string)
    requires s != [] && !IsSpace(s[0])
    ensures LStrip(s) == s
  {
  }

  /** The line written for a count is parsed back to that count, whatever follows it. */
  lemma CountLineParses(marker: string, n: nat, rest: string)
    requires marker != []
    ensures TokenCount(CountLine(marker, Some(n)) + rest, marker) == Some(n)
  {
    var ds := NatToDecimal(n);
    var s := marker + " " + ds + "\n" + rest;
    assert CountLine(marker, Some(n)) + rest == s;
    assert s[..|marker|] == marker;
    assert s[|marker|..] == " " + ds + ("\n" + rest);
    LStripSpaceThenDigits(ds, "\n" + rest);
    LeadingDigitsOf(ds, "\n" + rest);
    DecimalRoundTrip(n);
  }

  lemma HeadingsAreFree(marker: string)
    requires marker == PromptMarker || marker == CompletionMarker
    ensures Absent(OcrHeading, marker) && Absent(ResultHeading, marker) && Absent(UsageHeading, marker)
    ensures Absent("\n\n", marker)
  {
    AbsentByFirst(OcrHeading, marker);
    AbsentByFirst(ResultHeading, marker);
    AbsentByFirst(UsageHeading, marker);
    AbsentByFirst("\n\n", marker);
  }

  lemma OtherLineIsFree(marker: string, other: string, n: Option<nat>)
    requires (marker == PromptMarker && other == CompletionMarker) || (marker == CompletionMarker && other == PromptMarker)
    ensures Absent(CountLine(other, n), marker)
  {
    if n.Some? {
      var ds := NatToDecimal(n.value);
      assert forall k :: 0 <= k < |ds| ==> IsDigit(ds[k]);
      assert CountLine(other, n) == other + " " + ds + "\n";
      assert marker[0] !in CountLine(other, n);
    }
    AbsentByFirst(CountLine(other, n), marker);
  }

  /** The part of the report before the usage block carries no marker. */
  lemma BodyIsFree(ocr: string, result: string, marker: string)
    requires marker == PromptMarker || marker == CompletionMarker
    requires Absent(ocr, marker) && Absent(result, marker)
    ensures var body := OcrHeading + ocr + "\n\n" + ResultHeading + result + "\n\n";
      Absent(body, marker) && body[|body| - 1] == '\n'
  {
    HeadingsAreFree(marker);
    AbsentJoin(OcrHeading, ocr, marker);
    AbsentJoin(OcrHeading + ocr, "\n\n", marker);
    AbsentJoin(OcrHeading + ocr + "\n\n", ResultHeading, marker);
    AbsentJoin(OcrHeading + ocr + "\n\n" + ResultHeading, result, marker);
    AbsentJoin(OcrHeading + ocr + "\n\n" + ResultHeading + result, "\n\n", marker);
  }

  /** The usage block yields, for each marker, the count written for it, or none. */
  lemma UsageParses(usage: Option<Usage>, marker: string)
    requires marker == PromptMarker || marker == CompletionMarker
    ensures TokenCount(UsageSection(usage), marker) == Written(usage, marker)
  {
    HeadingsAreFree(marker);
    if usage.Some? {
      var u := usage.value;
      var p := CountLine(PromptMarker, u.promptTokens);
      var c := CountLine(CompletionMarker, u.completionTokens);
      assert UsageSection(usage) == UsageHeading + (p + c);
      SkipPrefix(UsageHeading, p + c, marker);
      if marker == PromptMarker {
        OtherLineIsFree(marker, CompletionMarker, u.completionTokens);
        if u.promptTokens.Some? {
          CountLineParses(marker, u.promptTokens.value, c);
        } else {
          assert p + c == c;
          FindCountNone(c, marker, 0);
        }
      } else {
        OtherLineIsFree(marker, PromptMarker, u.promptTokens);
        if p == [] {
          assert p + c == c;
        } else {
          SkipPrefix(p, c, marker);
        }
        if u.completionTokens.Some? {
          CountLineParses(marker, u.completionTokens.value, "");
          assert c + "" == c;
        } else {
          FindCountNone(c, marker, 0);
        }
      }
    } else {
      FindCountNone("", marker, 0);
    }
  }

  /**
   * A reply that itself starts with a count line for the marker decides what the report reads
   * back, whatever the usage block says.
   */
  lemma EchoedCountWins(ocr: string, n: nat, tail: string, usage: Option<Usage>, marker: string)
    requires marker == PromptMarker || marker == CompletionMarker
    requires Absent(ocr, marker)
    ensures TokenCount(Report(ocr, CountLine(marker, Some(n)) + tail, usage), marker) == Some(n)
  {
    var head := OcrHeading + ocr + "\n\n" + ResultHeading;
    var line, after := CountLine(marker, Some(n)), "\n\n" + UsageSection(usage);
    ReportSplits(ocr, line + tail, usage);
    assert (line + tail) + after == line + (tail + after);
    HeadIsFree(ocr, marker);
    CountAfterFreeHead(head, n, tail + after, marker);
  }

  lemma CountAfterFreeHead(head: string, n: nat, rest: string, marker: string)
    requires Absent(head, marker) && '\n' !in marker && marker != []
    requires head != [] && head[|head| - 1] == '\n'
    ensures TokenCount(head + (CountLine(marker, Some(n)) + rest), marker) == Some(n)
  {
    SkipPrefix(head, CountLine(marker, Some(n)) + rest, marker);
    CountLineParses(marker, n, rest);
  }

  /** The report is the part before the reply, the reply, and the part after it. */
  lemma ReportSplits(ocr: string, result: string, usage: Option<Usage>)
    ensures Report(ocr, result, usage) ==
      (OcrHeading + ocr + "\n\n" + ResultHeading) + (result + ("\n\n" + UsageSection(usage)))
  {
  }

  /** The part of the report before the reply carries no marker when the OCR text has none. */
  lemma HeadIsFree(ocr: string, marker: string)
    requires marker == PromptMarker || marker == CompletionMarker
    requires Absent(ocr, marker)
    ensures var head := OcrHeading + ocr + "\n\n" + ResultHeading;
      Absent(head, marker) && head[|head| - 1] == '\n'
  {
    HeadingsAreFree(marker);
    AbsentJoin(OcrHeading, ocr, marker);
    AbsentJoin(OcrHeading + ocr, "\n\n", marker);
    AbsentJoin(OcrHeading + ocr + "\n\n", ResultHeading, marker);
  }

  /** So the count read back need not be the one written: a reply echoing 7 beats a usage of 5. */
  lemma EchoOverridesUsage()
    ensures var usage := Some(Usage(Some(5), None));
      && TokenCount(Report("ocr", CountLine(PromptMarker, Some(7)), usage), PromptMarker) == Some(7)
      && Written(usage, PromptMarker) == Some(5)
  {
    AbsentByFirst("ocr", PromptMarker);
    EchoedCountWins("ocr", 7, "", Some(Usage(Some(5), None)), PromptMarker);
    assert CountLine(PromptMarker, Some(7)) + "" == CountLine(PromptMarker, Some(7));
  }

  /**
   * Reading a report back gives the counts that were written, provided neither the OCR text
   * nor the AI reply holds the marker.
   */
  lemma ReportParsesBack(ocr: string, result: string, usage: Option<Usage>, marker: string)
    requires marker == PromptMarker || marker == CompletionMarker
    requires Absent(ocr, marker) && Absent(result, marker)
    ensures TokenCount(Report(ocr, result, usage), marker) == Written(usage, marker)
  {
    var body := OcrHeading + ocr + "\n\n" + ResultHeading + result + "\n\n";
    BodyIsFree(ocr, result, marker);
    assert Report(ocr, result, usage) == body + UsageSection(usage);
    SkipPrefix(body, UsageSection(usage), marker);
    UsageParses(usage, marker);
  }
}
