/**
 * The state of `EssayGraderApp` (auto_essay_grader.py:45-120, 237-351) that its methods update:
 * the settings held in Tk variables, the parser's contents, the settings file, and the list of
 * selected images. The file is kept as what parsing it yields, `None` when it is missing or
 * cannot be parsed.
 */
module GraderApp {
  import opened Options
  import opened ConfigStore
  import opened CostWindow
  import opened Worker
  import opened TokenTotals

  class App {
    var apiType: string
    var apiKey: string
    var deepThink: bool
    var saveMoney: bool
    var title: string
    var criteria: string
    var imagePaths: seq<string>
    var tesseractPath: Option<string>
    var config: Config
    var settingsFile: Option<Config>

    /** The values `save_config` writes. */
    function Current(): Settings
      reads this
    {
      Settings(apiType, apiKey, deepThink, saveMoney, criteria, tesseractPath)
    }

    /** `__init__` up to `load_config` (auto_essay_grader.py:46-58); the window is left out. */
    constructor(file: Option<Config>)
      ensures var l := Load(file, None);
        && Current() == l.settings
        && (l.reset ==> config == Save(l.config, l.settings) && settingsFile == Some(config))
        && (!l.reset ==> config == l.config && settingsFile == file)
      ensures title == "" && imagePaths == []
    {
      apiType, apiKey, deepThink, saveMoney := "", "", false, false;
      title, criteria, imagePaths := "", "", [];
      tesseractPath := None;
      config, settingsFile := map[], file;
      new;
      LoadConfig();
    }

    /**
     * `load_config` (auto_essay_grader.py:66-92): the settings come from the file, or, when it
     * is missing or unreadable, the defaults are installed and written back at once.
     */
    method LoadConfig()
      modifies this
      ensures var l := Load(old(settingsFile), old(tesseractPath));
        && Current() == l.settings
        && (l.reset ==> config == Save(l.config, l.settings) && settingsFile == Some(config))
        && (!l.reset ==> config == l.config && settingsFile == old(settingsFile))
      ensures title == old(title) && imagePaths == old(imagePaths)
    {
      var l := Load(settingsFile, tesseractPath);
      apiType, apiKey := l.settings.apiType, l.settings.apiKey;
      deepThink, saveMoney := l.settings.deepThink, l.settings.saveMoney;
      criteria, tesseractPath := l.settings.criteria, l.settings.tesseractPath;
      config := l.config;
      if l.reset {
        SaveConfig();
      }
    }

    /** `save_config` (auto_essay_grader.py:99-118): the parser is updated and written out. */
    method SaveConfig()
      modifies this
      ensures config == Save(old(config), old(Current())) && settingsFile == Some(config)
      ensures Current() == old(Current())
      ensures title == old(title) && imagePaths == old(imagePaths)
    {
      config := Save(config, Current());
      settingsFile := Some(config);
    }

    /** `select_files` (auto_essay_grader.py:237-255): a cancelled dialogue keeps the old list. */
    method SelectFiles(files: seq<string>)
      modifies this
      ensures imagePaths == if files != [] then files else old(imagePaths)
      ensures Current() == old(Current()) && title == old(title)
      ensures config == old(config) && settingsFile == old(settingsFile)
    {
      if |files| >= 1 {
        imagePaths := files;
      }
    }

    /**
     * `_real_start_grading` (auto_essay_grader.py:283-297): the checks in order, and only when
     * all pass are the settings saved and the worker started.
     */
    method RealStartGrading() returns (o: StartOutcome)
      modifies this
      ensures o == Guard(old(imagePaths), old(apiKey), old(title), old(criteria))
      ensures o == Started ==> config == Save(old(config), old(Current())) && settingsFile == Some(config)
      ensures o != Started ==> config == old(config) && settingsFile == old(settingsFile)
      ensures Current() == old(Current()) && title == old(title) && imagePaths == old(imagePaths)
    {
      if imagePaths == [] {
        return NoImages;
      }
      if apiKey == "" {
        return NoApiKey;
      }
      if title == "" {
        return NoTitle;
      }
      if criteria == "" {
        return NoCriteria;
      }
      SaveConfig();
      return Started;
    }

    /**
     * `start_grading` (auto_essay_grader.py:257-281) at the time `now`: either the checks run at
     * once, or nothing is checked or changed and the start is put off until the plan's target.
     */
    method StartGrading(now: DateTime) returns (plan: Plan, o: Option<StartOutcome>)
      requires now.Valid()
      modifies this
      ensures plan == Decide(old(saveMoney), now)
      ensures plan.StartNow? ==> o == Some(Guard(old(imagePaths), old(apiKey), old(title), old(criteria)))
      ensures plan.StartNow? && o == Some(Started) ==>
        config == Save(old(config), old(Current())) && settingsFile == Some(config)
      ensures plan.WaitUntil? ==> o.None? && config == old(config) && settingsFile == old(settingsFile)
      ensures plan.StartNow? && o != Some(Started) ==> config == old(config) && settingsFile == old(settingsFile)
      ensures Current() == old(Current()) && title == old(title) && imagePaths == old(imagePaths)
    {
      plan := Decide(saveMoney, now);
      if plan.WaitUntil? {
        return plan, None;
      }
      var outcome := RealStartGrading();
      o := Some(outcome);
    }

    /**
     * `_grading_done` (auto_essay_grader.py:316-357) over the directory `listing`: the text of
     * `total.txt` is produced from the selected reports, and the image list is cleared.
     */
    method GradingDone(listing: seq<ReportFile>, now: string) returns (totalText: string)
      modifies this
      ensures totalText == TotalText(now, listing)
      ensures imagePaths == []
      ensures Current() == old(Current()) && title == old(title)
      ensures config == old(config) && settingsFile == old(settingsFile)
    {
      var promptTotal, completionTotal := SumTokens(listing);
      totalText := TotalLayout(now, promptTotal, completionTotal, Selection(listing));
      imagePaths := [];
    }
  }
}
