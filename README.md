# Essay grader core, modelled in Dafny

`auto_essay_grader.py` is a desktop tool. It reads photographed English essays with OCR, sends
each one to a chat-completion service (DeepSeek or ChatGPT) together with a title and a rubric,
writes the score it finds in the reply onto a copy of the image, and writes a text report
named after the image's stem into the output folder (images with the same stem share one report,
the last one written wins). When a batch ends it writes `total.txt`: the token counts summed over
every `.txt` file then in that folder except `total.txt` itself, followed by those files. This project models the rules inside that program and proves what they guarantee:

- **Escaping** (`escaping.dfy`): the rubric is escaped onto one line of the settings file and
  unescaped again when the file is loaded.
- **ConfigStore** (`config_store.dfy`): the settings file is read with fallbacks, reset to
  defaults when it is missing or unreadable, and written back.
- **OcrCleaning** (`ocr_cleaning.dfy`): recognised text is cleaned. When less than ten
  characters are left, the fixed sentinel `[图片识别失败]` is returned instead.
- **ScoreExtraction** (`score_extraction.dfy`): the regular expression `<score>(.*?)</>` is
  written as an explicit search. It finds the leftmost match, the group is lazy, and `.` does
  not match a newline. The result is stripped, and `无分数` is used when nothing matches.
- **CostWindow** (`cost_window.dfy`): the cost-saving mode. Any time outside 00:30–08:30 (both
  ends included) is put off until the next 00:30.
- **TokenReport** (`token_report.dfy`): the per-image report and its name, and the
  `marker\s*(\d+)` search that reads the token counts back.
- **TokenTotals** (`token_totals.dfy`): the report files are selected by name, their counts are
  summed in a loop, and `total.txt` is laid out.
- **Dispatch** (`dispatch.dfy`): which service and model a request goes to. DeepSeek's reasoning
  is joined to its answer.
- **Worker** (`worker.dfy`): the start checks, the prompt, the progress snippet, and the
  per-image loop that writes reports into the output directory.
- **GraderApp** (`grader_app.dfy`): the `EssayGraderApp` state as a class. Its methods load,
  save, select, start and finish.
- `strings.dfy` and `options.dfy` model Python's `strip`, `splitlines`, `replace`, `lower` and
  decimal digits, and an `Option` type.

Everything outside the program is a parameter of the model:

- what OCR recognised (`None` when recognition raised);
- what the service answered (`None` when the call raised);
- the parsed settings file (`None` when it is missing or cannot be parsed);
- the directory listing with the file contents;
- the clock.

## Model

| member | source | states |
|---|---|---|
| Escaping.EscapeIsOneLine | auto_essay_grader.py:110-111 | the escaped rubric contains no newline, so it is stored on one line |
| Escaping.RoundTrip | auto_essay_grader.py:79 | unescaping the escaped rubric restores it when the rubric contains no backslash-n |
| Escaping.RoundTripNewlines | auto_essay_grader.py:79 | after the round trip the rubric has as many newlines as it had newlines and backslash-n pairs together |
| Escaping.RoundTripIff | auto_essay_grader.py:79 | the round trip restores the rubric if and only if it contains no backslash-n |
| Escaping.LiteralBackslashNBecomesNewline | auto_essay_grader.py:79 | a rubric typed as `a\nb` with a literal backslash comes back with a real newline |
| ConfigStore.Save | auto_essay_grader.py:104-118 | the three sections exist; type, key and both flags are stored, the flags as `True`/`False`; the rubric is stored escaped; the OCR path is stored when set |
| ConfigStore.SaveKeepsOthers | auto_essay_grader.py:104-118 | every option that saving does not write keeps its old value, or stays missing |
| ConfigStore.ParseBoolText | auto_essay_grader.py:75-76 | `getboolean` reads back the `str(bool)` that saving writes |
| ConfigStore.SaveThenLoad | auto_essay_grader.py:73-118 | loading what was saved never resets. It gives back the saved settings, with the rubric passed through the round trip and an unset OCR path read from what the file already held |
| ConfigStore.SaveThenLoadRestores | auto_essay_grader.py:73-118 | without a backslash-n in the rubric, and with the OCR path set or already in the file, loading the parsed map gives back exactly the saved settings |
| ConfigStore.ResetRepairsFile | auto_essay_grader.py:84-92 | after a reset, the file written loads without resetting and yields the defaults |
| OcrCleaning.CleanLines | auto_essay_grader.py:369 | every kept line is non-empty with no whitespace at either end; break-free lines stay break-free; the non-whitespace characters are unchanged |
| OcrCleaning.CleanLinesOfOne | auto_essay_grader.py:369 | a single line is kept, stripped, exactly when it is not blank |
| OcrCleaning.CleanLinesAppend | auto_essay_grader.py:369 | cleaning a concatenation of line lists is concatenating their cleanings, so with `CleanLinesOfOne` every non-blank line is kept, stripped and otherwise unchanged, on its own line and in order |
| OcrCleaning.CleanTextOfClean | auto_essay_grader.py:367-373 | already clean text (tidy lines joined by newlines) is left exactly as is, spaces inside lines included, and at ten characters or more it is what OCR returns |
| OcrCleaning.OcrText | auto_essay_grader.py:367-373 | the sentinel is returned if and only if the cleaned text is shorter than 10 characters; otherwise the cleaned text is returned |
| OcrCleaning.OcrImageSpec | auto_essay_grader.py:363-376 | `ocr_image` never fails: a failed recognition gives the sentinel, and any other result is the sentinel or a text of at least 10 characters whose lines are all tidy and whose visible characters are exactly those recognised |
| OcrCleaning.CleanTextIsTidy | auto_essay_grader.py:367-373 | in a text that passes the length test, every line is non-empty with no leading or trailing whitespace |
| OcrCleaning.CleanTextKeepsContent | auto_essay_grader.py:367-369 | cleaning removes only whitespace; the visible characters survive in order |
| OcrCleaning.BlankIsFailure | auto_essay_grader.py:367-372 | text made only of whitespace gives the sentinel |
| Strings.StripSpec | auto_essay_grader.py:367 | `str.strip`: the result is a slice with no whitespace at either end, and only whitespace is cut away |
| Strings.SplitJoin | auto_essay_grader.py:369 | splitting a non-empty list of break-free lines, after joining it with newlines, gives back the list |
| ScoreExtraction.FindCloseSpec | auto_essay_grader.py:445 | the lazy group stops at the first `</>` and never crosses a newline; when it fails, no reachable `</>` exists |
| ScoreExtraction.FindMatchSpec | auto_essay_grader.py:445 | the search returns a real match that starts leftmost, and for that start the shortest one; when it fails there is no match at all |
| ScoreExtraction.Score | auto_essay_grader.py:445-449 | with no match, the score is `无分数` |
| ScoreExtraction.ScoreOfLeftmostMatch | auto_essay_grader.py:445-447 | for a match that starts leftmost and has the shortest group for that start, the score is that group stripped |
| ScoreExtraction.ScoreWithoutMatch | auto_essay_grader.py:445-449 | the search reports no match exactly when no match exists, and then the score is `无分数` |
| ScoreExtraction.CaptureIsOneLineWithoutClose | auto_essay_grader.py:445-447 | the captured group holds no newline and no `</>` |
| ScoreExtraction.NoOpenMeansNoScore | auto_essay_grader.py:448-449 | a reply without any `<` gets `无分数` |
| ScoreExtraction.AppendKeepsScore | auto_essay_grader.py:445 | once a reply carries a match, appending text after it does not change the score |
| ScoreExtraction.PrefixWithoutOpenKeepsScore | auto_essay_grader.py:445 | a prefix without `<` does not change the score |
| CostWindow.Decide | auto_essay_grader.py:261-272 | grading starts at once if and only if the mode is off or the time is in the inclusive window. Otherwise the target is a valid 00:30 inside the window, strictly after now by the wait, which is under 16 hours. Before 00:30 the target is today (a wait of at most 30 minutes); after 08:30 it is tomorrow |
| CostWindow.InWindowAgrees | auto_essay_grader.py:264-266 | the window test on a day and time of day agrees with the test on the absolute instant |
| CostWindow.NothingOpensBeforeTarget | auto_essay_grader.py:267-272 | no instant between now and the target falls in any day's window, so the target is the next opening |
| TokenReport.StemSplits | auto_essay_grader.py:497 | `splitext` gives `n` for `n.e` when `e` has no dot and `n` does not start with one |
| TokenReport.StemWithoutDot | auto_essay_grader.py:497 | a name without a dot is its own stem |
| TokenReport.StemOfDotFile | auto_essay_grader.py:497 | a name whose only dot leads it is its own stem |
| TokenReport.BasenameSpec | auto_essay_grader.py:494 | the base name is the longest suffix of the path without a `/` |
| TokenReport.BasenameOfJoin | auto_essay_grader.py:494 | a file name without `/` inside any directory has itself for base name |
| TokenReport.ReportNamesCollide | auto_essay_grader.py:497 | `a.png` and `a.jpg` get the same report name, `a.txt` |
| TokenReport.ReportNamesCollideAcrossFolders | auto_essay_grader.py:494-497 | `/u/a.png` and `/v/a.jpg` also get the report name `a.txt`: the folder plays no part |
| TokenReport.FindCountSpec | auto_essay_grader.py:332-333 | the count found is the one at the leftmost position where the marker is followed by optional whitespace and digits, and none is found exactly when there is no such position |
| TokenReport.SkipPrefix | auto_essay_grader.py:332-333 | a marker-free prefix ending in a line break does not change the count found, for a marker without a line break |
| TokenReport.CountLineParses | auto_essay_grader.py:514-516 | a written count line reads back as its count, whatever follows it |
| TokenReport.UsageParses | auto_essay_grader.py:508-516 | the usage block reads back, for each marker, exactly the count written for it, or none when it was not written or `usage` was falsy |
| TokenReport.ReportParsesBack | auto_essay_grader.py:503-516 | a whole report reads back the counts written, provided neither the OCR text nor the reply holds the marker |
| TokenReport.EchoedCountWins | auto_essay_grader.py:332-333 | when the reply starts with a count line for the marker, that count is what the report reads back, whatever the usage block holds |
| TokenReport.EchoOverridesUsage | auto_essay_grader.py:332-333 | a reply echoing `上传token数: 7` makes the report read back 7 although the usage written was 5 |
| TokenTotals.Selection | auto_essay_grader.py:320 | a file is selected if and only if it is listed, its lower-cased name ends in `.txt`, and its name is not `total.txt` |
| TokenTotals.SelectionOfOne | auto_essay_grader.py:320 | a single entry is kept exactly when its name is selected |
| TokenTotals.SelectionAppend | auto_essay_grader.py:320 | selecting from a concatenated listing is concatenating the selections; with `SelectionOfOne` this fixes the selection as the listing's selected entries, in listing order and with repeats |
| TokenTotals.SumTokens | auto_essay_grader.py:322-337 | the loop's two totals are the sums, over the selected files, of the first count after each marker (0 for a file without one) |
| TokenTotals.SelectionTotal | auto_essay_grader.py:320-337 | the total over the selection equals the sum over the whole listing, with unselected files weighing nothing |
| TokenTotals.ListingOrderIrrelevant | auto_essay_grader.py:320 | any reordering of the directory listing gives the same totals |
| TokenTotals.TotalFileIgnored | auto_essay_grader.py:320 | an existing `total.txt` adds nothing to the totals |
| TokenTotals.TotalImageReportLeftOut | auto_essay_grader.py:320 | the report of an image `total.png` is named `total.txt` and is left out of the totals |
| TokenTotals.CaseOfExclusion | auto_essay_grader.py:320 | the extension test ignores case and the exclusion does not: `Total.TXT` and `a.Txt` are counted, `a.txt.bak` is not |
| TokenTotals.TotalTextParsesBack | auto_essay_grader.py:340-344 | searching `total.txt` for its own two labels gives back the two sums, when the clock text has no `【` and no newline |
| Dispatch.ComboboxValuesRoute | auto_essay_grader.py:379-382 | both values the settings dialogue offers, including `ChatGPT-3.5(不建议)`, go to DeepSeek; only the exact `ChatGPT` goes to ChatGPT |
| Dispatch.LoadedTypeRoutes | auto_essay_grader.py:73-92 | a file without a type goes to ChatGPT; the reset default goes to DeepSeek |
| Dispatch.DeepThinkOnlyForDeepSeek | auto_essay_grader.py:417 | the deep-thinking switch changes the model if and only if the request goes to DeepSeek |
| Dispatch.AnswerStartsWithContent | auto_essay_grader.py:405-437 | every answer starts with the service's content; ChatGPT's answer is the content alone; the usage is passed on unchanged |
| Dispatch.FailureHasNoScore | auto_essay_grader.py:438-440 | a failed call gives `[AI批改失败]` with no usage, and it scores as `无分数` |
| Dispatch.ContentScoreWins | auto_essay_grader.py:433-449 | when the content carries a score, the reasoning appended after it cannot change that score |
| Dispatch.ReasoningScoreUsed | auto_essay_grader.py:433-449 | when DeepSeek's content has no `<`, the score comes from the reasoning |
| Worker.Guard | auto_essay_grader.py:284-297 | the worker starts if and only if all four fields are non-empty; otherwise the outcome names the first empty one, in the order images, API key, title, rubric |
| Worker.GuardStopsAtFirstMissing | auto_essay_grader.py:284-295 | once a field is empty, the later fields do not affect the outcome |
| Worker.PromptDeterminesEssay | auto_essay_grader.py:304 | for a fixed title and rubric, different essays give different prompts |
| Worker.SnippetSpec | auto_essay_grader.py:307 | holds the first 100 characters with newlines turned into spaces, followed by `...` when cut; contains no newline; at most 103 characters; longer than 100 exactly when the reply is |
| Worker.ShortReplyEndingInDots | auto_essay_grader.py:307 | a short reply that itself ends in `...` is shown whole, so `...` does not imply a cut |
| Worker.LongReplyIsCut | auto_essay_grader.py:307 | a reply longer than 100 characters gives a 103-character snippet ending in `...` |
| Worker.GradeAll | auto_essay_grader.py:299-309 | image by image: the prompt comes from the cleaned OCR text, the answer is scored and reported under the stem of the image's base name, and the directory ends as all reports written in order |
| Worker.LastReportWins | auto_essay_grader.py:503 | the report left under a name is the last one written under it |
| Worker.OtherFilesKept | auto_essay_grader.py:503 | directory entries that receive no report are untouched |
| Worker.SameStemOverwrites | auto_essay_grader.py:494-503 | the reports of `/u/a.png` and `/v/a.jpg` share `a.txt`, and the second overwrites the first |
| GraderApp.App.constructor | auto_essay_grader.py:47-59 | the new application holds the loaded settings and no title or images; after a reset the repaired file has been written |
| GraderApp.App.LoadConfig | auto_essay_grader.py:66-92 | the settings come from the file, or the defaults are installed and written back at once; the title and images are unchanged |
| GraderApp.App.SaveConfig | auto_essay_grader.py:99-120 | the parser becomes `Save` of the current settings, the file holds it, and the settings are unchanged |
| GraderApp.App.SelectFiles | auto_essay_grader.py:237-255 | a non-empty choice replaces the image list; a cancelled dialogue keeps it; nothing else changes |
| GraderApp.App.RealStartGrading | auto_essay_grader.py:283-297 | the outcome is the guard's verdict on the current state, and the settings are saved only when grading starts |
| GraderApp.App.StartGrading | auto_essay_grader.py:257-281 | the plan is the window decision. Starting now runs the checks; waiting checks and changes nothing |
| GraderApp.App.GradingDone | auto_essay_grader.py:316-358 | the text written to `total.txt` is the layout of the selected reports and their sums, and the image list is cleared |

## Left out

- The tkinter window, dialogs, message boxes, `log_var`, `root.after` and `root.update` are left
  out because they are UI plumbing. The rubric text box is taken to agree with the rubric
  variable, so the syncing between them (auto_essay_grader.py:62-64, 94-97, 102-103) is not modelled.
- `threading.Thread` and `time.sleep` are left out, as concurrency and wall-clock effects. The
  delayed start is a `Plan` value, and the checks run when it fires, as in the code.
- OCR, PIL image opening, drawing and saving, and font probing (auto_essay_grader.py:451-495) are
  foreign library calls. What OCR recognised is a parameter. The score drawn is the string computed.
- The OpenAI client and `logging` are network I/O and a third-party SDK. The reply is a parameter.
  A `None` content, on which `content + ...` would raise, is not modelled.
- `find_tesseract_on_windows` and `setup_tesseract_path` (auto_essay_grader.py:38-44, 122-136)
  search the filesystem in an unspecified order.
- configparser syntax is not modelled: interpolation of `%`, lower-casing of option names,
  stripping of values, partial parses, and serialisation. The file is its parsed map, and
  a failing parse is `None`.
- GraderApp.App.RealStartGrading and ConfigStore.SaveThenLoadRestores: `%` interpolation is not
  modelled. configparser's default interpolation refuses a value with a lone `%` when it is set,
  so a rubric such as `内容占40%`, or a key with a lone `%`, makes `save_config` raise
  (auto_essay_grader.py:111-116), and the worker is then never started; the model always saves
  and returns `Started`. A saved `%%` also reads back as `%`. configparser also strips every
  value it reads, which the model does not: a rubric that starts with the paragraph indent `　　`
  (U+3000) or ends in a space or tab comes back without it, a rubric made only of whitespace
  comes back as `""` (so after a restart the rubric check at auto_essay_grader.py:293 stops the
  next start), and an API key loses spaces at either end. The round trip these two members state
  therefore holds of the parsed map, not of the program, for rubrics and keys with `%` or with
  whitespace at either end.
- Worker.GradeAll and GraderApp.App.GradingDone: file names are compared exactly, as on a
  case-sensitive file system. On Windows and on macOS's default file system `A.txt` and `a.txt`
  are one file, so:
  - the reports of `A.png` and `a.jpg` overwrite each other, while the model keeps both and
    `OtherFilesKept` leaves an existing `A.txt` untouched by writing `a.txt`;
  - the report `Total.txt` of an image `Total.png` is selected and counted by
    auto_essay_grader.py:320 (`CaseOfExclusion`), but is the file that the `open(..., "w")` of
    line 340 truncates before line 347 reads it again, so its section is lost; the model keeps it.
- TokenReport.Basename: only `/` separates folders, as in POSIX `os.path.basename`. On Windows
  `\` and a drive prefix also end the folder part; these are not modelled.
- `os.listdir` order is taken as given; `ListingOrderIrrelevant` proves it does not matter
  for the totals.
- Whitespace and digits use Python's whitespace set and ASCII digits only. `lower` is ASCII
  only, and `\d` ignores non-ASCII digits.
- `splitlines` differs from Python's only in the empty pieces it yields, which the OCR cleaner
  drops anyway.
- Calendar dates and daylight saving time are left out: a time is a day number plus microseconds
  of the day. `total_seconds()` is an integer count of microseconds, not a float. `strftime` is
  not modelled; the formatted clock is a string parameter.
- The API test button (auto_essay_grader.py:221-232) and the balance link are calls to the
  network and the browser.
- The output directory name (auto_essay_grader.py:300) is left out: the output directory is a map
  from file name to contents, and the image copies saved into it are not modelled.
- Worker.GradeAll: `write_result_on_image` calls `ocr_image` a second time for the report. The
  model assumes it returns the same text as the first call.
- Worker.GradeAll: when an exception inside `write_result_on_image` skips the report, the model
  cannot express it, because it always writes the report.
- GraderApp.App.GradingDone: the `try`/`except` around reading and writing the files is not
  modelled, since every listed file is readable here. The name of each section's file is its
  listed name. The progress label is not modelled.
- Worker.SnippetSpec: a snippet can end in `...` without the reply being cut
  (`ShortReplyEndingInDots`), so the contract states instead that the snippet is longer than
  100 characters exactly when the reply is.
- Not every per-image report reaches `total.txt`:
  - images with the same stem overwrite one another (`SameStemOverwrites`);
  - the report of `total.png` is named `total.txt`, which `_grading_done` then overwrites with
    the summary (auto_essay_grader.py:340), so that report is lost (`TotalImageReportLeftOut`);
  - stale `.txt` files already in the directory are counted.

  The model follows the code here.
- The start checks run when the delayed start fires, not when the button is pressed, because the
  model follows the code.
