/**
 * `_grading_done` (auto_essay_grader.py:316-351): the report files of the output directory are
 * selected by name, their two token counts are summed, and `total.txt` records the sums
 * followed by every selected report.
 */
module TokenTotals {
  import opened Options
  import opened Strings
  import opened TokenReport

  /** A file of the output directory, as `os.listdir` names it and `f.read()` returns it. */
  datatype ReportFile = ReportFile(name: string, content: string)

  const TotalName: string := "total.txt"
  const TimeHeading: string := "【统计时间】"
  const TotalPromptLabel: string := "【总上传token数】:"
  const TotalCompletionLabel: string := "【总回复token数】:"

  /** `f.lower().endswith(".txt") and f != "total.txt"`. */
  predicate Selected(name: string) {
    EndsWith(Lower(name), ".txt") && name != TotalName
  }

  /** `txt_files`, in directory order. */
  function Selection(files: seq<ReportFile>): (r: seq<ReportFile>)
    ensures |r| <= |files|
    ensures forall k :: 0 <= k < |r| ==> Selected(r[k].name)
    ensures forall f :: f in r <==> f in files && Selected(f.name)
  {
    if files == [] then []
    else (if Selected(files[0].name) then [files[0]] else []) + Selection(files[1..])
  }

  /** What one report adds to a total: its first count, or 0 when the marker is not found. */
  function Contribution(content: string, marker: string): nat {
    TokenCount(content, marker).GetOr(0)
  }

  /** The sum of the contributions of `fs`. */
  function Total(fs: seq<ReportFile>, marker: string): nat {
    if fs == [] then 0 else Contribution(fs[0].content, marker) + Total(fs[1..], marker)
  }

  /** The contribution of a directory entry, 0 for one that is not selected. */
  function Weight(f: ReportFile, marker: string): nat {
    if Selected(f.name) then Contribution(f.content, marker) else 0
  }

  /** The contributions of the selected entries of `fs`, summed over the whole listing. */
  function ListingTotal(fs: seq<ReportFile>, marker: string): nat {
    if fs == [] then 0 else Weight(fs[0], marker) + ListingTotal(fs[1..], marker)
  }

  /**
   * The summing loop of `_grading_done` (auto_essay_grader.py:320-337): both totals are the
   * sums of the contributions of the selected files.
   */
  method SumTokens(files: seq<ReportFile>) returns (promptTotal: nat, completionTotal: nat)
    ensures promptTotal == Total(Selection(files), PromptMarker)
    ensures completionTotal == Total(Selection(files), CompletionMarker)
  {
    var txtFiles := Selection(files);
    promptTotal, completionTotal := 0, 0;
    for i := 0 to |txtFiles|
      invariant promptTotal == Total(txtFiles[..i], PromptMarker)
      invariant completionTotal == Total(txtFiles[..i], CompletionMarker)
    {
      var content := txtFiles[i].content;
      var promptMatch := TokenCount(content, PromptMarker);
      var completionMatch := TokenCount(content, CompletionMarker);
      if promptMatch.Some? {
        promptTotal := promptTotal + promptMatch.value;
      }
      if completionMatch.Some? {
        completionTotal := completionTotal + completionMatch.value;
      }
      TotalStep(txtFiles, i, PromptMarker);
      TotalStep(txtFiles, i, CompletionMarker);
    }
    assert txtFiles[..|txtFiles|] == txtFiles;
  }

  /** One `===== name =====` section per selected report, in order. */
  function Sections(fs: seq<ReportFile>): string {
    if fs == [] then "" else "===== " + fs[0].name + " =====\n" + fs[0].content + "\n\n" + Sections(fs[1..])
  }

  /** The text of `total.txt` (auto_essay_grader.py:340-351); `now` is the formatted clock. */
  function TotalText(now: string, files: seq<ReportFile>): string {
    var txtFiles := Selection(files);
    TotalLayout(now, Total(txtFiles, PromptMarker), Total(txtFiles, CompletionMarker), txtFiles)
  }

  /** The time line, the two sums, a blank line and the sections. */
  function TotalLayout(now: string, p: nat, c: nat, txtFiles: seq<ReportFile>): string {
    TimeHeading + now + "\n" + CountLine(TotalPromptLabel, Some(p)) + CountLine(TotalCompletionLabel, Some(c))
      + "\n" + Sections(txtFiles)
  }

  // ---------------------------------------------------------------------------
  // the selection keeps the listing's order and repetitions: with `SelectionOfOne`,
  // `SelectionAppend` determines `Selection` entry by entry

  /** A single entry is kept exactly when its name is selected. */
  lemma SelectionOfOne(f: ReportFile)
    ensures Selection([f]) == if Selected(f.name) then [f] else []
  {
    assert [f][1..] == [];
  }

  /** Selecting from two listings one after the other is selecting from their concatenation. */
  lemma {:induction false} SelectionAppend(a: seq<ReportFile>, b: seq<ReportFile>)
    ensures Selection(a + b) == Selection(a) + Selection(b)
  {
    if a == [] {
      assert a + b == b;
    } else {
      assert (a + b)[1..] == a[1..] + b;
      SelectionAppend(a[1..], b);
    }
  }

  // ---------------------------------------------------------------------------
  // sums

  lemma {:induction false} TotalAppend(a: seq<ReportFile>, b: seq<ReportFile>, marker: string)
    ensures Total(a + b, marker) == Total(a, marker) + Total(b, marker)
  {
    if a == [] {
      assert a + b == b;
    } else {
      assert (a + b)[1..] == a[1..] + b;
      TotalAppend(a[1..], b, marker);
    }
  }

  lemma TotalStep(fs: seq<ReportFile>, i: nat, marker: string)
    requires i < |fs|
    ensures Total(fs[..i + 1], marker) == Total(fs[..i], marker) + Contribution(fs[i].content, marker)
  {
    assert fs[..i + 1] == fs[..i] + [fs[i]];
    TotalAppend(fs[..i], [fs[i]], marker);
  }

  lemma {:induction false} ListingTotalAppend(a: seq<ReportFile>, b: seq<ReportFile>, marker: string)
    ensures ListingTotal(a + b, marker) == ListingTotal(a, marker) + ListingTotal(b, marker)
  {
    if a == [] {
      assert a + b == b;
    } else {
      assert (a + b)[1..] == a[1..] + b;
      ListingTotalAppend(a[1..], b, marker);
    }
  }

  /** Summing over the selection is summing the weights over the whole listing. */
  lemma {:induction false} SelectionTotal(fs: seq<ReportFile>, marker: string)
    ensures Total(Selection(fs), marker) == ListingTotal(fs, marker)
  {
    if fs != [] {
      SelectionTotal(fs[1..], marker);
      var head := if Selected(fs[0].name) then [fs[0]] else [];
      TotalAppend(head, Selection(fs[1..]), marker);
    }
  }

  lemma ListingTotalRemove(b: seq<ReportFile>, j: nat, marker: string)
    requires j < |b|
    ensures ListingTotal(b, marker) == Weight(b[j], marker) + ListingTotal(b[..j] + b[j + 1..], marker)
  {
    assert b == b[..j] + ([b[j]] + b[j + 1..]);
    ListingTotalAppend(b[..j], [b[j]] + b[j + 1..], marker);
    ListingTotalAppend(b[..j], b[j + 1..], marker);
    assert ([b[j]] + b[j + 1..])[1..] == b[j + 1..];
  }

  lemma MultisetRemove(a: seq<ReportFile>, b: seq<ReportFile>, j: nat)
    requires a != [] && j < |b| && b[j] == a[0] && multiset(a) == multiset(b)
    ensures multiset(a[1..]) == multiset(b[..j] + b[j + 1..])
  {
    assert b == b[..j] + ([b[j]] + b[j + 1..]);
    assert multiset(b) == multiset(b[..j]) + multiset([b[j]]) + multiset(b[j + 1..]);
    assert a == [a[0]] + a[1..];
    assert multiset(a) == multiset([a[0]]) + multiset(a[1..]);
    assert multiset(b[..j] + b[j + 1..]) == multiset(b[..j]) + multiset(b[j + 1..]);
    assert multiset(a[1..]) == multiset(a) - multiset{a[0]};
    assert multiset(b[..j]) + multiset(b[j + 1..]) == multiset(b) - multiset{a[0]};
  }

  lemma {:induction false} ListingTotalPermutation(a: seq<ReportFile>, b: seq<ReportFile>, marker: string)
    requires multiset(a) == multiset(b)
    ensures ListingTotal(a, marker) == ListingTotal(b, marker)
    decreases |a|
  {
    if a == [] {
      assert |b| == |multiset(b)| == 0;
    } else {
      assert a[0] in multiset(b);
      var j :| 0 <= j < |b| && b[j] == a[0];
      ListingTotalRemove(b, j, marker);
      MultisetRemove(a, b, j);
      ListingTotalPermutation(a[1..], b[..j] + b[j + 1..], marker);
    }
  }

  /** The order in which the directory lists its files does not change the totals. */
  lemma ListingOrderIrrelevant(files: seq<ReportFile>, files': seq<ReportFile>, marker: string)
    requires multiset(files) == multiset(files')
    ensures Total(Selection(files), marker) == Total(Selection(files'), marker)
  {
    SelectionTotal(files, marker);
    SelectionTotal(files', marker);
    ListingTotalPermutation(files, files', marker);
  }

  /** A `total.txt` already in the directory is not counted. */
  lemma TotalFileIgnored(files: seq<ReportFile>, content: string, marker: string)
    ensures Total(Selection(files + [ReportFile(TotalName, content)]), marker) == Total(Selection(files), marker)
  {
    SelectionTotal(files + [ReportFile(TotalName, content)], marker);
    SelectionTotal(files, marker);
    ListingTotalAppend(files, [ReportFile(TotalName, content)], marker);
  }

  /** The report of an image named `total.png` is `total.txt`, which is left out of the totals. */
  lemma TotalImageReportLeftOut()
    ensures ReportName("total.png") == TotalName && !Selected(ReportName("total.png"))
  {
    StemSplits("total", "png");
    assert "total" + "." + "png" == "total.png";
  }

  /** The exclusion is case-sensitive while the extension test is not: `Total.TXT` is counted. */
  lemma CaseOfExclusion()
    ensures Selected("Total.TXT") && Selected("a.Txt") && !Selected("a.txt.bak")
  {
    assert Lower("Total.TXT") == "total.txt";
    assert Lower("a.Txt") == "a.txt";
    assert Lower("a.txt.bak") == "a.txt.bak";
  }

  // ---------------------------------------------------------------------------
  // the totals file records the sums under its own labels

  /** A text whose first character alone can start `key`, and does not, holds no `key`. */
  lemma AbsentAfterFirst(s: string, key: string)
    requires |key| >= 3 && s != [] && key[0] !in s[1..] && (|s| >= 3 ==> s[1] != key[1] || s[2] != key[2])
    ensures Absent(s, key)
  {
    forall k ensures !OccursAt(s, key, k) {
      if 0 <= k && k + |key| <= |s| {
        if k == 0 {
          assert s[k..k + |key|][1] == s[1] && s[k..k + |key|][2] == s[2];
        } else {
          assert s[k..k + |key|][0] == s[1..][k - 1];
        }
      }
    }
  }

  lemma TimeLineFree(now: string, key: string)
    requires key == TotalPromptLabel || key == TotalCompletionLabel
    requires '【' !in now && '\n' !in now
    ensures var t := TimeHeading + now + "\n"; Absent(t, key) && t[|t| - 1] == '\n'
  {
    var t := TimeHeading + now + "\n";
    assert t[1..] == "统计时间】" + now + "\n";
    assert t[1] == '统';
    AbsentAfterFirst(t, key);
  }

  lemma PromptLineFree(n: nat)
    ensures var l := CountLine(TotalPromptLabel, Some(n));
      Absent(l, TotalCompletionLabel) && l[|l| - 1] == '\n'
  {
    var ds := NatToDecimal(n);
    var l := CountLine(TotalPromptLabel, Some(n));
    assert l[1..] == "总上传token数】: " + ds + "\n";
    assert forall k :: 0 <= k < |ds| ==> IsDigit(ds[k]);
    assert l[2] == '上';
    AbsentAfterFirst(l, TotalCompletionLabel);
  }

  lemma LayoutParsesPrompt(now: string, p: nat, c: nat, txtFiles: seq<ReportFile>)
    requires '【' !in now && '\n' !in now
    ensures TokenCount(TotalLayout(now, p, c, txtFiles), TotalPromptLabel) == Some(p)
  {
    var t := TimeHeading + now + "\n";
    var lp := CountLine(TotalPromptLabel, Some(p));
    var rest := CountLine(TotalCompletionLabel, Some(c)) + ("\n" + Sections(txtFiles));
    assert TotalLayout(now, p, c, txtFiles) == t + (lp + rest);
    TimeLineFree(now, TotalPromptLabel);
    SkipPrefix(t, lp + rest, TotalPromptLabel);
    CountLineParses(TotalPromptLabel, p, rest);
  }

  lemma LayoutParsesCompletion(now: string, p: nat, c: nat, txtFiles: seq<ReportFile>)
    requires '【' !in now && '\n' !in now
    ensures TokenCount(TotalLayout(now, p, c, txtFiles), TotalCompletionLabel) == Some(c)
  {
    var t := TimeHeading + now + "\n";
    var lp := CountLine(TotalPromptLabel, Some(p));
    var lc := CountLine(TotalCompletionLabel, Some(c));
    var tail := "\n" + Sections(txtFiles);
    assert TotalLayout(now, p, c, txtFiles) == (t + lp) + (lc + tail);
    TimeLineFree(now, TotalCompletionLabel);
    PromptLineFree(p);
    AbsentJoin(t, lp, TotalCompletionLabel);
    SkipPrefix(t + lp, lc + tail, TotalCompletionLabel);
    CountLineParses(TotalCompletionLabel, c, tail);
  }

  /**
   * `total.txt` can be read back: searching it for its own labels gives the two sums, provided
   * the clock text holds no `【` and no newline.
   */
  lemma TotalTextParsesBack(now: string, files: seq<ReportFile>)
    requires '【' !in now && '\n' !in now
    ensures TokenCount(TotalText(now, files), TotalPromptLabel) == Some(Total(Selection(files), PromptMarker))
    ensures TokenCount(TotalText(now, files), TotalCompletionLabel) == Some(Total(Selection(files), CompletionMarker))
  {
    var txtFiles := Selection(files);
    LayoutParsesPrompt(now, Total(txtFiles, PromptMarker), Total(txtFiles, CompletionMarker), txtFiles);
    LayoutParsesCompletion(now, Total(txtFiles, PromptMarker), Total(txtFiles, CompletionMarker), txtFiles);
  }
}
