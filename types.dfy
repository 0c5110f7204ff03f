/** The records and constants the rest of the model shares: the explanation record, a
    saved code version, the explanation level and tone, the error messages shown to the
    user and the size limits of the code sent to the model. */
module Types {

  datatype Option<T> = None | Some(value: T)

  /** The structured explanation. `tips` and `relatedLinks` are optional fields: `None`
      stands for a field that is absent (`undefined`). */
  datatype Explanation = Explanation(
    summary: string,
    howItWorks: seq<string>,
    keyTechniques: seq<string>,
    watchOut: seq<string>,
    tips: Option<seq<string>>,
    relatedLinks: Option<seq<string>>)

  /** A saved code version. `number` is `None` (null) only for the current, unsaved code;
      `savedAt` is a timestamp in milliseconds. */
  datatype CodeVersion = CodeVersion(id: string, number: Option<int>, code: string, savedAt: int)

  datatype ExplainLevel = Beginner | Intermediate | Advanced

  datatype ExplainTone = Casual | Normal | Formal

  /** Limits on the code sent to the model. */
  const MaxLines: nat := 200
  const MaxBytes: nat := 10240

  /** Messages shown to the user. */
  const NoCodeMessage: string := "コードを入力してください"
  const NoDiffCodeMessage: string := "前後のコードが必要です"
  const NoApiKeyMessage: string :=
    "OpenAI APIキーが設定されていません。右上の入力欄にAPIキーを入力してください"
  const ApiErrorMessage: string := "エラーが発生しました"
  const StreamErrorMessage: string := "レスポンスの読み取りに失敗しました"
}
