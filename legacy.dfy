/** The non-streaming `explainHeuristically` and `explainDiffHeuristically`: the older
    explanation schema (`summary`, `constructs`, `pitfalls`, `alternative`), one prompt
    per level asking for a JSON object, and the checks and defaults applied to the parsed
    answer. The request is a `LegacyResponse` value and `JSON.parse` of the content is a
    `parse` function handed in. */
module Legacy {
  import opened Types
  import opened Text
  import opened Errors
  import opened Language
  import opened Mask
  import opened Truncate
  import opened Prompt

  datatype LegacyExplanation = LegacyExplanation(
    summary: string, constructs: seq<string>, pitfalls: seq<string>, alternative: Option<string>)

  /** What `JSON.parse` gives for the content: not an object at all (or a parse error), or
      an object with its `summary` (`None` when missing or not a string), its
      `constructs` and `pitfalls` (`None` when not arrays) and its `alternative`. */
  datatype Parsed =
    | NotObject
    | Object(summary: Option<string>, constructs: Option<seq<string>>, pitfalls: Option<seq<string>>,
             alternative: Option<string>)

  /** The HTTP answer: a status that is not ok with its body, an ok answer whose first
      choice has the given content (`None` when absent), or a failure of the request or
      of reading the answer, with what was thrown. */
  datatype LegacyResponse = Status(code: int, text: string) | Body(content: Option<string>) | Rejected(error: Thrown)

  datatype LegacyOutcome = Resolved(explanation: LegacyExplanation) | Failed(error: Thrown)

  const LegacyPrefix: string := "API エラー: "
  const EmptyAnswerMessage: string := "OpenAIからの応答が空です"
  const ConstructsDefault: string := "コード構造の解析に失敗しました"
  const PitfallsDefault: string := "特に注意すべき点は見つかりませんでした"

  /** The explanation returned when the answer is not a usable object. */
  const Fallback: LegacyExplanation := LegacyExplanation(
    "AIの応答を解析できませんでした。別のコードで再度お試しください。",
    ["解析に失敗しました"], ["AIの応答が期待された形式ではありませんでした"], None)

  const JsonOnly: string := "重要：必ず以下のJSON形式で返答してください。他の形式は使用しないでください。"

  /** The JSON shape each level's prompt asks for. */
  function Schema(level: ExplainLevel): string {
    match level
    case Beginner =>
      "{\n  \"summary\": \"コードの概要（初心者向けに平易な言葉で）\",\n"
      + "  \"constructs\": [\"使用されている主要な構文やAPIの説明\"],\n"
      + "  \"pitfalls\": [\"注意すべき点や落とし穴\"],\n"
      + "  \"alternative\": \"より良い書き方の例（あれば、15行以内）\"\n}"
    case Intermediate =>
      "{\n  \"summary\": \"コードの構造と設計意図の説明\",\n"
      + "  \"constructs\": [\"使用されている構文やAPIとその選択理由\"],\n"
      + "  \"pitfalls\": [\"潜在的な問題やエッジケース\"],\n"
      + "  \"alternative\": \"より良い実装例（あれば、15行以内）\"\n}"
    case Advanced =>
      "{\n  \"summary\": \"アーキテクチャレベルの分析とパフォーマンス特性\",\n"
      + "  \"constructs\": [\"技術選択の根拠、計算量、メモリ効率性\"],\n"
      + "  \"pitfalls\": [\"スケーラビリティの課題、並行性の問題、セキュリティリスク\"],\n"
      + "  \"alternative\": \"業界のベストプラクティスに基づく最適化案（あれば、15行以内）\"\n}"
  }

  const DiffSchema: string :=
    "{\n  \"summary\": \"変更内容の要約（何が追加/削除/変更されたか）\",\n"
    + "  \"constructs\": [\"変更後のコードで使用されている主要な構文やAPI\"],\n"
    + "  \"pitfalls\": [\"変更によって生じた新たな注意点や解消された問題\"],\n"
    + "  \"alternative\": \"さらに良い実装例（あれば、15行以内）\"\n}"

  /** The extra request of the advanced prompt. */
  const AnalysisLine: string := "パフォーマンス（時間/空間計算量）、保守性、拡張性、セキュリティの観点から分析してください。"

  const CodeLabel: string := "コード："

  function Intro(langName: string, subject: string, levelText: string): string {
    "以下の" + langName + subject + "を" + levelText + "向けに解説してください。\n" + JsonOnly + "\n\n"
  }

  /** Everything in the code prompt before the code label. */
  function LegacyHead(langName: string, level: ExplainLevel): string {
    Intro(langName, "コード", LevelWord(level)) + Schema(level) + "\n\n"
      + (if level == Advanced then AnalysisLine + "\n\n" else "")
  }

  /** The prompt of `explainHeuristically`, one template per level. */
  function LegacyCodePrompt(code: string, lang: string, level: ExplainLevel): string {
    LegacyHead(DisplayName(lang), level) + (CodeLabel + ("\n" + code))
  }

  /** The prompt of `explainDiffHeuristically`. */
  function LegacyDiffPrompt(before: string, after: string, lang: string, level: ExplainLevel): string {
    Intro(DisplayName(lang), "コードの変更", LevelWord(level)) + DiffSchema
      + ("\n\n変更前のコード：\n" + before + "\n\n変更後のコード：\n" + after)
  }

  /** What the `try` block of both functions makes of the answer. */
  function Answer(response: LegacyResponse, parse: string -> Parsed): LegacyOutcome {
    match response
    case Rejected(e) => Failed(Rethrown(LegacyPrefix, e))
    case Status(code, text) => Failed(Rethrown(LegacyPrefix, CreateApiError(code, text)))
    case Body(content) =>
      if content.None? || content.value == "" then Failed(Rethrown(LegacyPrefix, PlainError(EmptyAnswerMessage)))
      else Resolved(Accept(parse(content.value)))
  }

  /** The inner `try`: an object with a non-empty summary and both arrays is kept, with an
      empty array replaced by its default; anything else gives the fallback. */
  function Accept(p: Parsed): LegacyExplanation {
    if p.NotObject? || p.summary.None? || p.summary.value == "" || p.constructs.None? || p.pitfalls.None?
    then Fallback
    else LegacyExplanation(p.summary.value,
                           if |p.constructs.value| == 0 then [ConstructsDefault] else p.constructs.value,
                           if |p.pitfalls.value| == 0 then [PitfallsDefault] else p.pitfalls.value,
                           p.alternative)
  }

  /** `explainHeuristically`: the key check comes before anything else and its error is
      not wrapped; the prompt carries the masked, then truncated, code. */
  method ExplainHeuristically(code: string, lang: string, level: ExplainLevel, apiKey: string,
                              response: LegacyResponse, parse: string -> Parsed)
    returns (prompt: Option<string>, outcome: LegacyOutcome)
    ensures AssertApiKey(Some(apiKey)).Some? ==> prompt == None && outcome == Failed(AssertApiKey(Some(apiKey)).value)
    ensures AssertApiKey(Some(apiKey)).None? ==>
      prompt == Some(LegacyCodePrompt(TruncateDefault(MaskSensitiveData(code)), lang, level))
      && outcome == Answer(response, parse)
  {
    var keyError := AssertApiKey(Some(apiKey));
    if keyError.Some? {
      return None, Failed(keyError.value);
    }
    var maskedCode := MaskSensitiveData(code);
    var truncatedCode := TruncateDefault(maskedCode);
    var langName := DisplayName(lang);
    var text: string;
    if level == Beginner {
      text := LegacyHead(langName, Beginner) + (CodeLabel + ("\n" + truncatedCode));
    } else if level == Intermediate {
      text := LegacyHead(langName, Intermediate) + (CodeLabel + ("\n" + truncatedCode));
    } else {
      text := LegacyHead(langName, Advanced) + (CodeLabel + ("\n" + truncatedCode));
    }
    prompt := Some(text);
    outcome := Request(response, parse);
  }

  /** `explainDiffHeuristically`: both codes are masked and truncated each on its own. */
  method ExplainDiffHeuristically(before: string, after: string, lang: string, level: ExplainLevel, apiKey: string,
                                  response: LegacyResponse, parse: string -> Parsed)
    returns (prompt: Option<string>, outcome: LegacyOutcome)
    ensures AssertApiKey(Some(apiKey)).Some? ==> prompt == None && outcome == Failed(AssertApiKey(Some(apiKey)).value)
    ensures AssertApiKey(Some(apiKey)).None? ==>
      prompt == Some(LegacyDiffPrompt(TruncateDefault(MaskSensitiveData(before)),
                                      TruncateDefault(MaskSensitiveData(after)), lang, level))
      && outcome == Answer(response, parse)
  {
    var keyError := AssertApiKey(Some(apiKey));
    if keyError.Some? {
      return None, Failed(keyError.value);
    }
    var maskedBefore := MaskSensitiveData(before);
    var maskedAfter := MaskSensitiveData(after);
    var truncatedBefore := TruncateDefault(maskedBefore);
    var truncatedAfter := TruncateDefault(maskedAfter);
    prompt := Some(LegacyDiffPrompt(truncatedBefore, truncatedAfter, lang, level));
    outcome := Request(response, parse);
  }

  /** The request and its checks, with the defaults written into the parsed object. */
  method Request(response: LegacyResponse, parse: string -> Parsed) returns (outcome: LegacyOutcome)
    ensures outcome == Answer(response, parse)
  {
    match response
    case Rejected(e) =>
      return Failed(Rethrown(LegacyPrefix, e));
    case Status(code, text) =>
      return Failed(Rethrown(LegacyPrefix, CreateApiError(code, text)));
    case Body(content) =>
      if content.None? || content.value == "" {
        return Failed(Rethrown(LegacyPrefix, PlainError(EmptyAnswerMessage)));
      }
      var p := parse(content.value);
      if p.NotObject? || p.summary.None? || p.summary.value == "" || p.constructs.None? || p.pitfalls.None? {
        return Resolved(Fallback);
      }
      var explanation := LegacyExplanation(p.summary.value, p.constructs.value, p.pitfalls.value, p.alternative);
      if |explanation.constructs| == 0 {
        explanation := explanation.(constructs := [ConstructsDefault]);
      }
      if |explanation.pitfalls| == 0 {
        explanation := explanation.(pitfalls := [PitfallsDefault]);
      }
      return Resolved(explanation);
  }

  /** A resolved explanation always has a summary and two non-empty lists; it is the
      fallback whenever the parsed answer is not a usable object, and a usable object keeps
      its summary and its non-empty lists. */
  lemma AcceptNeverEmpty(p: Parsed)
    ensures Accept(p).summary != "" && |Accept(p).constructs| > 0 && |Accept(p).pitfalls| > 0
    ensures Accept(p) == Fallback <== (p.NotObject? || p.summary.None? || p.summary.value == ""
                                       || p.constructs.None? || p.pitfalls.None?)
    ensures p.Object? && p.summary.Some? && p.summary.value != "" && p.constructs.Some? && p.pitfalls.Some? ==>
      && Accept(p).summary == p.summary.value
      && (|p.constructs.value| > 0 ==> Accept(p).constructs == p.constructs.value)
      && (|p.pitfalls.value| > 0 ==> Accept(p).pitfalls == p.pitfalls.value)
  {
  }

  /** The thrown errors: the status error and the empty answer, both behind the prefix. */
  lemma AnswerErrors(response: LegacyResponse, parse: string -> Parsed)
    ensures response.Status? ==>
      HandleApiError(Answer(response, parse).error)
        == LegacyPrefix + (ApiErrorPrefix + IntString(response.code) + " - " + response.text)
    ensures response.Body? && (response.content.None? || response.content == Some("")) ==>
      HandleApiError(Answer(response, parse).error) == LegacyPrefix + EmptyAnswerMessage
    ensures response.Body? && response.content.Some? && response.content.value != "" ==>
      Answer(response, parse).Resolved?
  {
    if response.Status? {
      CreatedErrorShown(response.code, response.text);
    }
  }

  /** The code comes last, after the code label. */
  lemma LegacyPromptEndsWithCode(code: string, lang: string, level: ExplainLevel)
    ensures EndsWith(LegacyCodePrompt(code, lang, level), CodeLabel + "\n" + code)
    ensures LegacyCodePrompt(code, lang, level)
         == Intro(DisplayName(lang), "コード", LevelWord(level)) + Schema(level) + "\n\n"
            + (if level == Advanced then AnalysisLine + "\n\n" else "") + CodeLabel + "\n" + code
  {
    var h := LegacyHead(DisplayName(lang), level);
    EndsWithAppend(h, CodeLabel + ("\n" + code));
    assert CodeLabel + ("\n" + code) == CodeLabel + "\n" + code;
  }

  /** The diff prompt ends with the before code and then the after code. */
  lemma LegacyDiffEndsWithCodes(before: string, after: string, lang: string, level: ExplainLevel)
    ensures EndsWith(LegacyDiffPrompt(before, after, lang, level),
                     "変更前のコード：\n" + before + "\n\n変更後のコード：\n" + after)
  {
    EndsWithAppend(Intro(DisplayName(lang), "コードの変更", LevelWord(level)) + DiffSchema,
                   "\n\n変更前のコード：\n" + before + "\n\n変更後のコード：\n" + after);
    assert "\n\n変更前のコード：\n" + before + "\n\n変更後のコード：\n" + after
        == "\n\n" + ("変更前のコード：\n" + before + "\n\n変更後のコード：\n" + after);
  }
}
