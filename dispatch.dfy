/**
 * `ask_ai`, `ask_chatgpt` and `ask_deepseek` (auto_essay_grader.py:378-440) without the HTTP
 * call: which service and model a request goes to, and how the reply becomes the text that is
 * graded and stored. The service's answer is a parameter, `None` when the call raised.
 */
module Dispatch {
  import opened Options
  import opened Strings
  import opened TokenReport
  import opened ScoreExtraction
  import opened ConfigStore

  datatype Provider = ChatGPT | DeepSeek

  /** What `ask_chatgpt` and `ask_deepseek` return when the call raised. */
  const FailureText: string := "[AI批改失败]"

  /** Put between the answer and DeepSeek's reasoning. */
  const ReasoningSeparator: string := "\n\n【思维链】\n"

  /** The parts of a chat-completion response that the code reads. */
  datatype Response = Response(content: string, reasoning: Option<string>, usage: Option<Usage>)

  /** What `ask_ai` returns: the reply text and the `usage` object. */
  datatype Answer = Answer(text: string, usage: Option<Usage>)

  /** `if self.api_type.get() == "ChatGPT"` (auto_essay_grader.py:379-382): an exact comparison. */
  function ProviderOf(apiType: string): Provider {
    if apiType == "ChatGPT" then ChatGPT else DeepSeek
  }

  /** The `model` argument of the request (auto_essay_grader.py:397, 417). */
  function ModelName(p: Provider, deepThink: bool): string {
    match p
    case ChatGPT => "gpt-3.5-turbo"
    case DeepSeek => if deepThink then "deepseek-reasoner" else "deepseek-chat"
  }

  /** `ask_chatgpt` after the call: the content alone. */
  function AskChatGpt(response: Option<Response>): Answer {
    match response
    case None => Answer(FailureText, None)
    case Some(r) => Answer(r.content, r.usage)
  }

  /** `ask_deepseek` after the call: the reasoning, when there is any, follows the content. */
  function AskDeepSeek(response: Option<Response>): Answer {
    match response
    case None => Answer(FailureText, None)
    case Some(r) =>
      if r.reasoning.Some? && r.reasoning.value != "" then
        Answer(r.content + ReasoningSeparator + r.reasoning.value, r.usage)
      else
        Answer(r.content, r.usage)
  }

  /** `ask_ai`. */
  function AskAi(apiType: string, response: Option<Response>): Answer {
    match ProviderOf(apiType)
    case ChatGPT => AskChatGpt(response)
    case DeepSeek => AskDeepSeek(response)
  }

  // ---------------------------------------------------------------------------
  // routing

  /**
   * Both values the settings dialogue offers (auto_essay_grader.py:207) send requests to
   * DeepSeek; only the bare `ChatGPT`, the fallback of a file without a type, reaches ChatGPT.
   */
  lemma ComboboxValuesRoute()
    ensures ProviderOf("Deepseek") == DeepSeek
    ensures ProviderOf("ChatGPT-3.5(不建议)") == DeepSeek
    ensures ProviderOf("ChatGPT") == ChatGPT
  {
    assert "ChatGPT-3.5(不建议)" != "ChatGPT" by {
      assert |"ChatGPT-3.5(不建议)"| != |"ChatGPT"|;
    }
  }

  /**
   * A settings file without a service type is routed to ChatGPT; one that was reset, or saved
   * from the dialogue, is routed to DeepSeek.
   */
  lemma LoadedTypeRoutes(cfg: Config, tesseractPath: Option<string>)
    ensures var l := Load(Some(cfg), tesseractPath);
      !l.reset && Get(cfg, ApiSection, "type").None? ==> ProviderOf(l.settings.apiType) == ChatGPT
    ensures Load(None, tesseractPath).settings.apiType == "Deepseek"
    ensures ProviderOf(Load(None, tesseractPath).settings.apiType) == DeepSeek
  {
    ComboboxValuesRoute();
  }

  /** The deep-thinking switch changes the model exactly when the request goes to DeepSeek. */
  lemma DeepThinkOnlyForDeepSeek(apiType: string)
    ensures ModelName(ProviderOf(apiType), true) != ModelName(ProviderOf(apiType), false) <==> apiType != "ChatGPT"
  {
    assert ModelName(DeepSeek, true)[9] != ModelName(DeepSeek, false)[9];
  }

  /** Every answer starts with the service's content, and ChatGPT's is the content alone. */
  lemma AnswerStartsWithContent(apiType: string, r: Response)
    ensures StartsWith(AskAi(apiType, Some(r)).text, r.content)
    ensures ProviderOf(apiType) == ChatGPT ==> AskAi(apiType, Some(r)).text == r.content
    ensures AskAi(apiType, Some(r)).usage == r.usage
  {
    var t := AskAi(apiType, Some(r)).text;
    assert t[..|r.content|] == r.content;
  }

  // ---------------------------------------------------------------------------
  // the score drawn from an answer

  /** A failed call is marked with the no-score label. */
  lemma FailureHasNoScore(apiType: string)
    ensures AskAi(apiType, None) == Answer(FailureText, None)
    ensures Score(AskAi(apiType, None).text) == NoScore
  {
    NoOpenMeansNoScore(FailureText);
  }

  /** When the content carries a score, the appended reasoning cannot change it. */
  lemma ContentScoreWins(apiType: string, r: Response)
    requires FindMatch(r.content, 0).Some?
    ensures Score(AskAi(apiType, Some(r)).text) == Score(r.content)
  {
    if ProviderOf(apiType) == DeepSeek && r.reasoning.Some? && r.reasoning.value != "" {
      assert AskAi(apiType, Some(r)).text == r.content + (ReasoningSeparator + r.reasoning.value);
      AppendKeepsScore(r.content, ReasoningSeparator + r.reasoning.value);
    }
  }

  /**
   * When DeepSeek's content has no `<` at all, the score drawn on the image is the one in the
   * reasoning, if the reasoning holds one.
   */
  lemma ReasoningScoreUsed(apiType: string, r: Response)
    requires ProviderOf(apiType) == DeepSeek && r.reasoning.Some? && r.reasoning.value != ""
    requires forall m :: 0 <= m < |r.content| ==> r.content[m] != '<'
    ensures Score(AskAi(apiType, Some(r)).text) == Score(r.reasoning.value)
  {
    var a := r.content + ReasoningSeparator;
    assert AskAi(apiType, Some(r)).text == a + r.reasoning.value;
    assert forall m :: 0 <= m < |a| ==> a[m] != '<' by {
      forall m | 0 <= m < |a| ensures a[m] != '<' {
        if m >= |r.content| {
          assert a[m] == ReasoningSeparator[m - |r.content|];
        }
      }
    }
    PrefixWithoutOpenKeepsScore(a, r.reasoning.value);
  }
}
