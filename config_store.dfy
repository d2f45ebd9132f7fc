/**
 * The settings file as `load_config` and `save_config` see it (auto_essay_grader.py:66-120):
 * sections of options, read with fallbacks, repaired with defaults when unreadable, and written
 * back with the rubric escaped onto one line.
 */
module ConfigStore {
  import opened Options
  import opened Strings
  import opened Escaping

  /** A parsed settings file: section name to option name to value. */
  type Config = map<string, map<string, string>>

  const ApiSection: string := "API"
  const PromptSection: string := "PROMPT"
  const OcrSection: string := "OCR"

  /** The settings `EssayGraderApp` keeps in its Tk variables. */
  datatype Settings = Settings(
    apiType: string,
    apiKey: string,
    deepThink: bool,
    saveMoney: bool,
    criteria: string,
    tesseractPath: Option<string>)

  /** The outcome of `load_config`: the settings, the parser's contents, and whether it reset. */
  datatype Loaded = Loaded(settings: Settings, config: Config, reset: bool)

  /** `config.get(section, option)`, `None` when the section or the option is missing. */
  function Get(cfg: Config, section: string, option: string): Option<string> {
    if section in cfg && option in cfg[section] then Some(cfg[section][option]) else None
  }

  /** `str(b)` for a Python bool. */
  function BoolText(b: bool): string {
    if b then "True" else "False"
  }

  /** configparser's `getboolean` conversion; `None` is the `ValueError` it raises. */
  function ParseBool(v: string): Option<bool> {
    var l := Lower(v);
    if l in {"1", "yes", "true", "on"} then Some(true)
    else if l in {"0", "no", "false", "off"} then Some(false)
    else None
  }

  /** `config.getboolean(section, option, fallback=...)`; `None` means it raised. */
  function GetBool(cfg: Config, section: string, option: string, fallback: bool): Option<bool> {
    match Get(cfg, section, option)
    case None => Some(fallback)
    case Some(v) => ParseBool(v)
  }

  /** The values `load_config` installs when the file is missing or cannot be read. */
  function Defaults(tesseractPath: Option<string>): Settings {
    Settings("Deepseek", "", true, false, "", tesseractPath)
  }

  /**
   * `load_config` (auto_essay_grader.py:66-92). `file` is the parsed file, `None` when it is
   * missing or unparsable; `tesseractPath` is the value the attribute held before, which the
   * reset path leaves alone.
   */
  function Load(file: Option<Config>, tesseractPath: Option<string>): Loaded {
    match file
    case None => Loaded(Defaults(tesseractPath), map[], true)
    case Some(cfg) =>
      var deep := GetBool(cfg, ApiSection, "deepthink", true);
      var save := GetBool(cfg, ApiSection, "savemoney", false);
      if deep.None? || save.None? then Loaded(Defaults(tesseractPath), cfg, true)
      else
        Loaded(Settings(
                 Get(cfg, ApiSection, "type").GetOr("ChatGPT"),
                 Get(cfg, ApiSection, "key").GetOr(""),
                 deep.value,
                 save.value,
                 Unescape(Get(cfg, PromptSection, "criteria").GetOr("")),
                 Get(cfg, OcrSection, "tesseract_path")),
               cfg, false)
  }

  /** Python truthiness of `self.tesseract_path`. */
  predicate Truthy(p: Option<string>) {
    p.Some? && p.value != ""
  }

  /** `if not config.has_section(name): config.add_section(name)`. */
  function AddSection(cfg: Config, name: string): (r: Config)
    ensures name in r && forall sec :: sec in cfg ==> sec in r && r[sec] == cfg[sec]
    ensures forall sec :: sec in r ==> sec in cfg || sec == name
    ensures name !in cfg ==> r[name] == map[]
  {
    if name in cfg then cfg else cfg[name := map[]]
  }

  /** Whether `save_config` writes option `option` of section `section`. */
  predicate SaveWrites(section: string, option: string, s: Settings) {
    || (section == ApiSection && option in {"type", "key", "deepthink", "savemoney"})
    || (section == PromptSection && option == "criteria")
    || (section == OcrSection && option == "tesseract_path" && Truthy(s.tesseractPath))
  }

  /**
   * The parser's contents after `save_config` (auto_essay_grader.py:99-118): the three
   * sections exist and the settings are stored (booleans as `str(bool)`, the rubric escaped,
   * the OCR path only when set); `SaveKeepsOthers` shows every other option is kept.
   */
  function Save(cfg: Config, s: Settings): (r: Config)
    ensures ApiSection in r && PromptSection in r && OcrSection in r
    ensures Get(r, ApiSection, "type") == Some(s.apiType)
    ensures Get(r, ApiSection, "key") == Some(s.apiKey)
    ensures Get(r, ApiSection, "deepthink") == Some(BoolText(s.deepThink))
    ensures Get(r, ApiSection, "savemoney") == Some(BoolText(s.saveMoney))
    ensures Get(r, PromptSection, "criteria") == Some(Escape(s.criteria))
    ensures Truthy(s.tesseractPath) ==> Get(r, OcrSection, "tesseract_path") == s.tesseractPath
  {
    var c := AddSection(AddSection(AddSection(cfg, ApiSection), PromptSection), OcrSection);
    var api := c[ApiSection]["type" := s.apiType]["key" := s.apiKey]
                 ["deepthink" := BoolText(s.deepThink)]["savemoney" := BoolText(s.saveMoney)];
    var prompt := c[PromptSection]["criteria" := Escape(s.criteria)];
    var ocr := if Truthy(s.tesseractPath) then c[OcrSection]["tesseract_path" := s.tesseractPath.value]
               else c[OcrSection];
    c[ApiSection := api][PromptSection := prompt][OcrSection := ocr]
  }

  // ---------------------------------------------------------------------------
  // properties

  /** Every option `save_config` does not write keeps the value it had, or stays missing. */
  lemma SaveKeepsOthers(cfg: Config, s: Settings, section: string, option: string)
    requires !SaveWrites(section, option, s)
    ensures Get(Save(cfg, s), section, option) == Get(cfg, section, option)
  {
  }

  lemma ParseBoolText(b: bool)
    ensures ParseBool(BoolText(b)) == Some(b)
  {
    if b {
      assert Lower("True") == "true";
    } else {
      assert Lower("False") == "false";
    }
  }

  /**
   * Loading what was saved gives back the settings, except that the rubric goes through
   * `Unescape(Escape(...))` and an unset OCR path reads back whatever the file already held;
   * a saved file never triggers the reset.
   */
  lemma SaveThenLoad(cfg: Config, s: Settings, tesseractPath: Option<string>)
    ensures var saved := Save(cfg, s);
      Load(Some(saved), tesseractPath) ==
        Loaded(s.(criteria := Unescape(Escape(s.criteria)),
                  tesseractPath := if Truthy(s.tesseractPath) then s.tesseractPath
                                   else Get(cfg, OcrSection, "tesseract_path")),
               saved, false)
  {
    ParseBoolText(s.deepThink);
    ParseBoolText(s.saveMoney);
    if !SaveWrites(OcrSection, "tesseract_path", s) {
      SaveKeepsOthers(cfg, s, OcrSection, "tesseract_path");
    }
  }

  /** The round trip is exact when the rubric has no literal backslash-n. */
  lemma SaveThenLoadRestores(cfg: Config, s: Settings, tesseractPath: Option<string>)
    requires !Contains(s.criteria, BackslashN)
    requires Truthy(s.tesseractPath) || s.tesseractPath == Get(cfg, OcrSection, "tesseract_path")
    ensures Load(Some(Save(cfg, s)), tesseractPath).settings == s
  {
    SaveThenLoad(cfg, s, tesseractPath);
    RoundTrip(s.criteria);
  }

  /**
   * A missing or corrupted file is replaced by one that loads cleanly to the defaults (the
   * OCR path being whatever the repaired file holds).
   */
  lemma ResetRepairsFile(file: Option<Config>, tesseractPath: Option<string>, later: Option<string>)
    requires Load(file, tesseractPath).reset
    ensures var l := Load(file, tesseractPath);
      var repaired := Load(Some(Save(l.config, l.settings)), later);
      && !repaired.reset
      && repaired.settings == Defaults(Get(Save(l.config, l.settings), OcrSection, "tesseract_path"))
  {
    var l := Load(file, tesseractPath);
    SaveThenLoad(l.config, l.settings, later);
    RoundTrip("");
  }
}
