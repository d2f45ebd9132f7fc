/**
 * The checks of `_real_start_grading` (auto_essay_grader.py:283-297) and the per-image loop of
 * `_grading_worker` (auto_essay_grader.py:299-309): the prompt sent for each essay, the score
 * drawn on it, the report written beside it and the progress line shown for it. What OCR
 * recognised and what the service answered are given as parameters.
 */
module Worker {
  import opened Options
  import opened Strings
  import opened OcrCleaning
  import opened ScoreExtraction
  import opened TokenReport
  import opened Dispatch

  // ---------------------------------------------------------------------------
  // the start checks

  /** Where `_real_start_grading` stops: the first missing input, or the start of the worker. */
  datatype StartOutcome = NoImages | NoApiKey | NoTitle | NoCriteria | Started

  /** The early returns of `_real_start_grading`, in their order (auto_essay_grader.py:284-297). */
  function Guard(images: seq<string>, apiKey: string, title: string, criteria: string): (o: StartOutcome)
    ensures o == Started <==> images != [] && apiKey != "" && title != "" && criteria != ""
    ensures o == NoImages <==> images == []
    ensures o == NoApiKey <==> images != [] && apiKey == ""
    ensures o == NoTitle <==> images != [] && apiKey != "" && title == ""
    ensures o == NoCriteria <==> images != [] && apiKey != "" && title != "" && criteria == ""
  {
    if images == [] then NoImages
    else if apiKey == "" then NoApiKey
    else if title == "" then NoTitle
    else if criteria == "" then NoCriteria
    else Started
  }

  /** Once a field is found missing, the later fields play no part in the outcome. */
  lemma GuardStopsAtFirstMissing(images: seq<string>, k: string, t: string, c: string,
                                 k': string, t': string, c': string)
    ensures images == [] ==> Guard(images, k, t, c) == Guard(images, k', t', c')
    ensures k == "" ==> Guard(images, k, t, c) == Guard(images, k, t', c')
    ensures k != "" && t == "" ==> Guard(images, k, t, c) == Guard(images, k, t, c')
  {
  }

  // ---------------------------------------------------------------------------
  // the prompt and the progress snippet

  const TitleLabel: string := "作文题目："
  const CriteriaLabel: string := "\n评分标准："
  const EssayLabel: string := "\n学生作文："
  const Request: string := "\n请根据评分标准批改并给出建议。"

  /** The user message of the request (auto_essay_grader.py:304). */
  function Prompt(title: string, criteria: string, text: string): string {
    TitleLabel + title + CriteriaLabel + criteria + EssayLabel + text + Request
  }

  /** With the title and the rubric fixed, different essays give different prompts. */
  lemma PromptDeterminesEssay(title: string, criteria: string, x: string, y: string)
    requires Prompt(title, criteria, x) == Prompt(title, criteria, y)
    ensures x == y
  {
    var head := TitleLabel + title + CriteriaLabel + criteria + EssayLabel;
    var p := Prompt(title, criteria, x);
    assert p == head + x + Request;
    assert Prompt(title, criteria, y) == head + y + Request;
    assert |x| == |y|;
    assert x == p[|head|..|head| + |x|];
    assert y == p[|head|..|head| + |y|];
  }

  /** The snippet keeps this many characters of the reply. */
  const SnippetLength: nat := 100

  /**
   * `result[:100].replace('\n', ' ')` followed by `...` when the reply is longer
   * (auto_essay_grader.py:307).
   */
  function Snippet(result: string): string {
    var head := result[..if |result| > SnippetLength then SnippetLength else |result|];
    Replace(head, "\n", " ") + (if |result| > SnippetLength then "..." else "")
  }

  /**
   * The snippet is the first hundred characters with newlines turned into spaces, followed by
   * `...` when the reply was cut; it holds no newline, and it is longer than the snippet
   * length exactly when the reply is.
   */
  lemma SnippetSpec(result: string)
    ensures var r, n := Snippet(result), if |result| > SnippetLength then SnippetLength else |result|;
      && |r| == n + (if |result| > SnippetLength then 3 else 0)
      && (forall k :: 0 <= k < n ==> r[k] == if result[k] == '\n' then ' ' else result[k])
      && (|result| > SnippetLength ==> r[n..] == "...")
      && '\n' !in r
      && |r| <= SnippetLength + 3
      && (|r| > SnippetLength <==> |result| > SnippetLength)
  {
    var head := result[..if |result| > SnippetLength then SnippetLength else |result|];
    ReplaceCharAt(head, '\n', ' ');
  }

  /**
   * A snippet may end in `...` without the reply being cut: a short reply that itself ends in
   * `...` is shown whole.
   */
  lemma ShortReplyEndingInDots()
    ensures |"ok..."| <= SnippetLength && Snippet("ok...") == "ok..."
  {
    var r := Snippet("ok...");
    SnippetSpec("ok...");
    assert |r| == 5;
    assert r[0] == 'o' && r[1] == 'k' && r[2] == '.' && r[3] == '.' && r[4] == '.';
  }

  /** The snippet ends in `...` whenever the reply is longer than the snippet length. */
  lemma LongReplyIsCut(result: string)
    requires |result| > SnippetLength
    ensures EndsWith(Snippet(result), "...") && |Snippet(result)| == SnippetLength + 3
  {
    SnippetSpec(result);
  }

  /** `第{idx+1}张完成，AI回复：{short_result}` (auto_essay_grader.py:313). */
  function ProgressLine(idx: nat, snippet: string): string {
    "第" + NatToDecimal(idx + 1) + "张完成，AI回复：" + snippet
  }

  // ---------------------------------------------------------------------------
  // the loop over the images

  /** What grading one image produces. */
  datatype Graded = Graded(prompt: string, score: string, reportName: string, report: string, progress: string)

  /**
   * One pass of the loop for the image at `path`, given what OCR recognised in it and what the
   * service answered; the report is named after the image's base name.
   */
  function GradeOne(idx: nat, path: string, title: string, criteria: string, apiType: string,
                    recognized: Option<string>, response: Option<Response>): Graded
  {
    var text := OcrImage(recognized);
    var answer := AskAi(apiType, response);
    Graded(Prompt(title, criteria, text), Score(answer.text), ReportName(Basename(path)),
           Report(text, answer.text, answer.usage), ProgressLine(idx, Snippet(answer.text)))
  }

  /** The output directory after writing the reports of `gs` in order; a later one overwrites. */
  function WriteAll(dir: map<string, string>, gs: seq<Graded>): map<string, string> {
    if gs == [] then dir
    else WriteAll(dir, gs[..|gs| - 1])[gs[|gs| - 1].reportName := gs[|gs| - 1].report]
  }

  /**
   * `_grading_worker` (auto_essay_grader.py:299-309): image by image, the prompt is built from
   * the cleaned OCR text, the answer is scored, and its report is written into `dir`.
   */
  method GradeAll(images: seq<string>, title: string, criteria: string, apiType: string,
                  recognized: seq<Option<string>>, responses: seq<Option<Response>>,
                  dir: map<string, string>)
    returns (graded: seq<Graded>, dir': map<string, string>)
    requires |recognized| == |images| && |responses| == |images|
    ensures |graded| == |images|
    ensures forall k :: 0 <= k < |images| ==>
      graded[k] == GradeOne(k, images[k], title, criteria, apiType, recognized[k], responses[k])
    ensures dir' == WriteAll(dir, graded)
  {
    graded, dir' := [], dir;
    for idx := 0 to |images|
      invariant |graded| == idx
      invariant forall k :: 0 <= k < idx ==>
        graded[k] == GradeOne(k, images[k], title, criteria, apiType, recognized[k], responses[k])
      invariant dir' == WriteAll(dir, graded)
    {
      var g := GradeOne(idx, images[idx], title, criteria, apiType, recognized[idx], responses[idx]);
      WriteAllStep(dir, graded, g);
      dir' := dir'[g.reportName := g.report];
      GradedStep(graded, g);
      graded := graded + [g];
    }
  }

  lemma GradedStep(graded: seq<Graded>, g: Graded)
    ensures |graded + [g]| == |graded| + 1 && (graded + [g])[|graded|] == g
    ensures forall k :: 0 <= k < |graded| ==> (graded + [g])[k] == graded[k]
  {
  }

  lemma WriteAllStep(dir: map<string, string>, gs: seq<Graded>, g: Graded)
    ensures WriteAll(dir, gs + [g]) == WriteAll(dir, gs)[g.reportName := g.report]
  {
    assert (gs + [g])[..|gs|] == gs;
  }

  /** The report left under a name is the one written last under it. */
  lemma {:induction false} LastReportWins(dir: map<string, string>, gs: seq<Graded>, k: nat)
    requires k < |gs|
    requires forall m :: k < m < |gs| ==> gs[m].reportName != gs[k].reportName
    ensures gs[k].reportName in WriteAll(dir, gs) && WriteAll(dir, gs)[gs[k].reportName] == gs[k].report
  {
    if k < |gs| - 1 {
      assert forall m :: k < m < |gs| - 1 ==> gs[..|gs| - 1][m] == gs[m];
      LastReportWins(dir, gs[..|gs| - 1], k);
    }
  }

  /** Entries the loop writes no report under are left alone. */
  lemma {:induction false} OtherFilesKept(dir: map<string, string>, gs: seq<Graded>, name: string)
    requires forall m :: 0 <= m < |gs| ==> gs[m].reportName != name
    ensures name in WriteAll(dir, gs) <==> name in dir
    ensures name in dir ==> WriteAll(dir, gs)[name] == dir[name]
  {
    if gs != [] {
      OtherFilesKept(dir, gs[..|gs| - 1], name);
    }
  }

  /**
   * Two essays `a.png` and `a.jpg` share one report, even from different folders, and the second
   * overwrites the first, so the directory ends with fewer reports than images.
   */
  lemma SameStemOverwrites(dir: map<string, string>, g1: Graded, g2: Graded)
    requires g1.reportName == ReportName(Basename("/u/a.png"))
    requires g2.reportName == ReportName(Basename("/v/a.jpg"))
    ensures "a.txt" in WriteAll(dir, [g1, g2]) && WriteAll(dir, [g1, g2])["a.txt"] == g2.report
  {
    ReportNamesCollideAcrossFolders();
    LastReportWins(dir, [g1, g2], 1);
  }
}
