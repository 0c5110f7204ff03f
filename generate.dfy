/** `generateCode`: the two prompt pairs (new code, or a change to the code already in
    the editor), the answer's error branches and the clean-up of a fenced answer. The
    request is a `GenResponse` value. */
module Generate {
  import opened Types
  import opened Text
  import opened Errors
  import opened Language

  /** The HTTP answer: a status that is not ok with its body, an ok answer whose first
      choice has the given content (`None` when absent), or a failure of the request or
      of reading the answer, with what was thrown. */
  datatype GenResponse = Status(code: int, text: string) | Body(content: Option<string>) | Rejected(error: Thrown)

  datatype GenOutcome = Generated(code: string) | Failed(error: Thrown)

  const GenerationPrefix: string := "コード生成エラー: "
  const EmptyCodeMessage: string := "生成されたコードが空です"

  /** Modification mode: there is existing code that is not blank. */
  predicate HasExistingCode(existingCode: Option<string>) {
    existingCode.Some? && Trim(existingCode.value) != ""
  }

  function SystemPrompt(langName: string, changing: bool): string {
    if changing then
      "あなたは" + langName + "のコード変更・改善アシスタントです。\n"
      + "既存のコードを起点として、ユーザーの要求に基づいて変更・改善・機能追加を行ってください。\n"
      + "完全に新しいコードで置き換えるのではなく、既存のコードを活かしながら変更してください。\n\n"
      + "重要な指示:\n"
      + "1. 変更されたコード全体を返してください。説明や追加のテキストは不要です。\n"
      + "2. 既存のコードの良い部分は残しつつ、要求された変更を加えてください。\n"
      + "3. 適切なエラーハンドリングを含めてください。\n"
      + "4. 必要に応じてコメントを追加してください。\n"
      + "5. " + langName + "の慣習に従ったコーディングスタイルを使用してください。\n"
      + "6. 既存の変数名や関数名、構造をできるだけ維持してください。\n"
      + "7. コメントでは日本語と英語の間に半角スペースを入れてください（例：「JavaScript のコード」「API の使用」）。"
    else
      "あなたは" + langName + "のコード生成アシスタントです。\n"
      + "ユーザーの要求に基づいて、クリーンで読みやすく、ベストプラクティスに従った" + langName + "コードを生成してください。\n\n"
      + "重要な指示:\n"
      + "1. コードのみを返してください。説明や追加のテキストは不要です。\n"
      + "2. 適切なエラーハンドリングを含めてください。\n"
      + "3. 必要に応じてコメントを追加してください。\n"
      + "4. " + langName + "の慣習に従ったコーディングスタイルを使用してください。\n"
      + "5. コメントでは日本語と英語の間に半角スペースを入れてください（例：「JavaScript のコード」「API の使用」）。"
  }

  const Fence: string := "```"

  /** The existing code in a block fenced with the language id. */
  function FencedCode(language: string, code: string): string {
    Fence + language + "\n" + code + "\n" + Fence
  }

  const ModifyRequest: string := "以下の要求に基づいて上記のコードを変更・改善してください：\n"
  const ModifyClosing: string := "\n\n変更されたコード全体を返してください。"

  function UserPrompt(langName: string, language: string, existingCode: string, request: string, changing: bool): string {
    if changing then
      "現在の" + langName + "コード:\n" + (FencedCode(language, existingCode) + ("\n\n" + (ModifyRequest + (request + ModifyClosing))))
    else
      "以下の要求に基づいて" + langName + "コードを生成してください：\n\n" + request + "\n\nコードのみを返してください。"
  }

  /** The length of the run of ASCII letters at `i`. */
  function LetterRun(s: string, i: nat): (n: nat)
    ensures i + n <= |s| || (i > |s| && n == 0)
    ensures forall k :: i <= k < i + n ==> IsLetter(s[k])
    ensures i + n < |s| ==> !IsLetter(s[i + n])
    decreases |s| - i
  {
    if i < |s| && IsLetter(s[i]) then 1 + LetterRun(s, i + 1) else 0
  }

  /** `replace(/^```[a-zA-Z]*\n/, '')`: drops one opening fence line at the very start. */
  function StripOpeningFence(s: string): string {
    if StartsWith(s, Fence) && 3 + LetterRun(s, 3) < |s| && s[3 + LetterRun(s, 3)] == '\n'
    then s[4 + LetterRun(s, 3)..]
    else s
  }

  /** `replace(/\n```$/, '')`: drops one closing fence at the very end. */
  function StripClosingFence(s: string): string {
    if EndsWith(s, "\n" + Fence) then s[..|s| - 4] else s
  }

  /** The returned code: both fences removed, then trimmed. */
  function CleanCode(content: string): string {
    Trim(StripClosingFence(StripOpeningFence(content)))
  }

  /** `generateCode`: `None` for the prompts when the key check throws first. */
  function GenerateCode(request: string, language: string, apiKey: string, existingCode: Option<string>,
                        response: GenResponse): (r: GenOutcome)
    ensures AssertApiKey(Some(apiKey)).Some? ==> r == Failed(AssertApiKey(Some(apiKey)).value)
    ensures AssertApiKey(Some(apiKey)).None? && response.Status? ==>
      r == Failed(Rethrown(GenerationPrefix, CreateApiError(response.code, response.text)))
    ensures AssertApiKey(Some(apiKey)).None? && response.Body? ==>
      (response.content.None? || response.content.value == "" <==> r == Failed(PlainError(GenerationPrefix + EmptyCodeMessage)))
    ensures AssertApiKey(Some(apiKey)).None? && response.Body? && response.content.Some? && response.content.value != "" ==>
      r == Generated(CleanCode(response.content.value))
    ensures AssertApiKey(Some(apiKey)).None? && response.Rejected? ==>
      r == Failed(Rethrown(GenerationPrefix, response.error))
    ensures r.Generated? ==> response.Body? && r.code == CleanCode(response.content.value)
  {
    var keyError := AssertApiKey(Some(apiKey));
    if keyError.Some? then Failed(keyError.value)
    else
      match response
      case Status(code, text) => Failed(Rethrown(GenerationPrefix, CreateApiError(code, text)))
      case Rejected(e) => Failed(Rethrown(GenerationPrefix, e))
      case Body(content) =>
        if content.None? || content.value == "" then Failed(Rethrown(GenerationPrefix, PlainError(EmptyCodeMessage)))
        else Generated(CleanCode(content.value))
  }

  /** The prompts sent: the modification pair exactly when there is non-blank existing
      code. */
  function Prompts(request: string, language: string, existingCode: Option<string>): (p: (string, string))
    ensures HasExistingCode(existingCode) ==>
      p == (SystemPrompt(DisplayName(language), true),
            UserPrompt(DisplayName(language), language, existingCode.value, request, true))
    ensures !HasExistingCode(existingCode) ==>
      p == (SystemPrompt(DisplayName(language), false), UserPrompt(DisplayName(language), language, "", request, false))
  {
    var changing := HasExistingCode(existingCode);
    var langName := DisplayName(language);
    (SystemPrompt(langName, changing), UserPrompt(langName, language, if changing then existingCode.value else "", request, changing))
  }

  /** A blank or missing existing code asks for new code. */
  lemma BlankExistingCodeIsNew(existingCode: Option<string>)
    requires existingCode.None? || Blank(existingCode.value)
    ensures !HasExistingCode(existingCode)
  {
    if existingCode.Some? {
      TrimEmptyIffBlank(existingCode.value);
    }
  }

  /** In modification mode the existing code sits inside a block fenced with the language
      id, and the request follows it. */
  lemma ModifyPromptShape(langName: string, language: string, code: string, request: string)
    ensures var u := UserPrompt(langName, language, code, request, true);
      && OccursAt(u, FencedCode(language, code), |"現在の" + langName + "コード:\n"|)
      && EndsWith(u, request + ModifyClosing)
  {
    var head := "現在の" + langName + "コード:\n";
    var tail := "\n\n" + (ModifyRequest + (request + ModifyClosing));
    var u := head + (FencedCode(language, code) + tail);
    assert u[|head|..|head| + |FencedCode(language, code)|] == FencedCode(language, code);
    var pre := head + FencedCode(language, code) + "\n\n" + ModifyRequest;
    assert u == pre + (request + ModifyClosing);
    assert u[|u| - |request + ModifyClosing|..] == request + ModifyClosing;
  }

  /** A fenced answer comes back as its trimmed body: both fences go. */
  lemma FencedAnswerCleaned(tag: string, body: string)
    requires forall k :: 0 <= k < |tag| ==> IsLetter(tag[k])
    ensures CleanCode(Fence + tag + "\n" + body + "\n" + Fence) == Trim(body)
  {
    var s := Fence + tag + "\n" + body + "\n" + Fence;
    FenceTag(s, tag, body + "\n" + Fence);
    var rest := body + "\n" + Fence;
    assert StripOpeningFence(s) == rest;
    assert rest[|rest| - 4..] == "\n" + Fence;
    assert rest[..|rest| - 4] == body;
  }

  lemma FenceTag(s: string, tag: string, rest: string)
    requires forall k :: 0 <= k < |tag| ==> IsLetter(tag[k])
    requires s == Fence + tag + "\n" + rest
    ensures LetterRun(s, 3) == |tag|
    ensures StripOpeningFence(s) == rest
  {
    LetterRunIs(s, 3, |tag|);
    assert s[3 + |tag|] == '\n';
    assert s[..3] == Fence;
    assert s[4 + |tag|..] == rest;
  }

  lemma {:induction false} LetterRunIs(s: string, i: nat, n: nat)
    requires i + n < |s| && !IsLetter(s[i + n])
    requires forall k :: i <= k < i + n ==> IsLetter(s[k])
    ensures LetterRun(s, i) == n
    decreases n
  {
    if n > 0 {
      LetterRunIs(s, i + 1, n - 1);
    }
  }

  /** Only one opening fence is removed: a second fence line stays. */
  lemma OneOpeningFenceOnly()
    ensures StripOpeningFence("```\n```\nx") == "```\nx"
  {
    var s := "```\n```\nx";
    LetterRunIs(s, 3, 0);
  }

  /** An answer without fences is only trimmed. */
  lemma UnfencedAnswerTrimmed(content: string)
    requires !StartsWith(content, Fence) && !EndsWith(content, "\n" + Fence)
    ensures CleanCode(content) == Trim(content)
  {
  }
}
