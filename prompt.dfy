/** The prompts sent for a code explanation and for a diff explanation: the section table
    per level and the two template builders. The prose is carried verbatim but only its
    structure is reasoned about: which sections appear, in what order, and where the
    code goes. */
module Prompt {
  import opened Types
  import opened Text
  import opened Language

  /** A title line (`## ...`) and the instruction under it. */
  datatype PromptSection = PromptSection(title: string, description: string)

  /** The sections requested at one level; `tips` and `relatedLinks` are optional fields. */
  datatype LevelSections = LevelSections(
    summary: PromptSection,
    howItWorks: PromptSection,
    keyTechniques: PromptSection,
    watchOut: PromptSection,
    tips: Option<PromptSection>,
    relatedLinks: Option<PromptSection>)

  /** The `PROMPT_SECTIONS` table. */
  function Sections(level: ExplainLevel): LevelSections {
    match level
    case Beginner =>
      LevelSections(
        PromptSection("## 概要", "コードが何をしているのか、平易な言葉で説明してください。"),
        PromptSection("## 動作の仕組み", "コードがどう動くのか、重要な部分を中心に順を追って説明してください。"),
        PromptSection("## 使われている技術", "コードで使われている主要な機能、メソッド、パターンを箇条書きで説明してください。"),
        PromptSection("## 注意点", "このコードを使う時に注意すべき点や、よくあるミスを箇条書きで説明してください。"),
        Some(PromptSection("## ヒント", "このコードをより良く使うための実用的なアドバイスがあれば箇条書きで紹介してください。")),
        None)
    case Intermediate =>
      LevelSections(
        PromptSection("## 概要", "コードの構造と設計意図を説明してください。"),
        PromptSection("## 動作の仕組み", "データの流れや処理のフロー、アルゴリズムのポイントを説明してください。"),
        PromptSection("## 使われている技術", "設計パターン、フレームワークの機能、ベストプラクティスを箇条書きで説明してください。"),
        PromptSection("## 注意点", "パフォーマンス上の懸念、エッジケース、メンテナンス時の課題を箇条書きで説明してください。"),
        Some(PromptSection("## 実装のコツ", "より効率的な実装方法、リファクタリングのポイントがあれば箇条書きで紹介してください。")),
        Some(PromptSection("## 参考リンク", "公式ドキュメントや関連記事があれば箇条書きで紹介してください。")))
    case Advanced =>
      LevelSections(
        PromptSection("## 概要", "アーキテクチャレベルの分析とパフォーマンス特性を説明してください。"),
        PromptSection("## 動作の仕組み", "内部実装の詳細、計算量、メモリ効率、並行処理の仕組みを説明してください。"),
        PromptSection("## 技術的な選択", "アルゴリズムの選定理由、トレードオフ、最適化手法、システム設計の原則を箇条書きで説明してください。"),
        PromptSection("## 潜在的な問題", "スケーラビリティ、セキュリティ、競合状態、メモリリークなどの深刻な問題を箇条書きで説明してください。"),
        Some(PromptSection("## 最適化のアプローチ", "プロファイリング結果に基づく最適化、代替アルゴリズムがあれば箇条書きで紹介してください。")),
        None)
  }

  /** The blank line between paragraphs of a prompt. */
  const Paragraph: string := "\n\n"

  /** The instruction on tone and the instruction on half-width spaces, shared by both
      builders. */
  const ToneInstruction: string :=
    "**口調に関する指示：**\n標準的な口調で解説してください。「〜です」「〜ます」を使ってください。"
  const SpacingInstruction: string :=
    "**文章作成時の重要な注意事項：**\n- 日本語と英語（単語・記号・数字）の間には必ず半角スペースを入れてください\n- 例：「JavaScript のコード」「API の使用」「React コンポーネント」「HTML 要素」"
  const Instructions: string := ToneInstruction + Paragraph + SpacingInstruction

  const FormatLabel: string := "解説形式："

  /** The closing request added at the advanced level, with its paragraph break. */
  const AnalysisNote: string :=
    "\n\nパフォーマンス（時間/空間計算量）、保守性、拡張性、セキュリティの観点から分析してください。"

  function SectionText(p: PromptSection): string {
    p.title + "\n" + p.description
  }

  /** The opening sentence of the code prompt. */
  function CodeTask(langName: string): string {
    "以下の" + langName + "コードを解析して、理解しやすく解説してください。"
  }

  function CodeHeader(langName: string): string {
    CodeTask(langName) + Paragraph + Instructions + Paragraph + FormatLabel + Paragraph
  }

  /** The four sections every level requests, in their fixed order. */
  function FixedSections(s: LevelSections): string {
    SectionText(s.summary) + Paragraph + SectionText(s.howItWorks) + Paragraph
    + SectionText(s.keyTechniques) + Paragraph + SectionText(s.watchOut)
  }

  /** `if (section) prompt += ...`: an optional section as its own paragraph. */
  function AppendSection(prompt: string, section: Option<PromptSection>): string {
    if section.Some? then prompt + Paragraph + SectionText(section.value) else prompt
  }

  /** The paragraph carrying the code, which ends the prompt. */
  function InputSuffix(code: string): string {
    "\n\n入力：\n" + code
  }

  /** The body of `buildCodePrompt` once the header and the level's sections are
      chosen: the fixed sections, the optional ones, the analysis note when `advanced`,
      then the code. */
  function AssemblePrompt(header: string, sections: LevelSections, advanced: bool, code: string): string {
    var prompt := header + FixedSections(sections);
    var withTips := AppendSection(prompt, sections.tips);
    var withLinks := AppendSection(withTips, sections.relatedLinks);
    var withNote := if advanced then withLinks + AnalysisNote else withLinks;
    withNote + InputSuffix(code)
  }

  /** `buildCodePrompt(code, lang, level)`. */
  function BuildCodePrompt(code: string, lang: string, level: ExplainLevel): string {
    AssemblePrompt(CodeHeader(DisplayName(lang)), Sections(level), level == Advanced, code)
  }

  /** The sections of a level as paragraphs, in the order the prompt lists them. */
  function Blocks(s: LevelSections): seq<string> {
    [SectionText(s.summary), SectionText(s.howItWorks), SectionText(s.keyTechniques),
     SectionText(s.watchOut)]
    + (if s.tips.Some? then [SectionText(s.tips.value)] else [])
    + (if s.relatedLinks.Some? then [SectionText(s.relatedLinks.value)] else [])
  }

  /** Every level requests tips; only the intermediate level requests related links. */
  lemma SectionsPresence(level: ExplainLevel)
    ensures Sections(level).tips.Some?
    ensures Sections(level).relatedLinks.Some? <==> level == Intermediate
  {
  }

  /** The paragraphs of a level: summary, how it works, key techniques, watch out, tips,
      and related links at the intermediate level only. */
  lemma BlocksOfLevel(level: ExplainLevel)
    ensures var s := Sections(level);
      Blocks(s) == [SectionText(s.summary), SectionText(s.howItWorks),
                    SectionText(s.keyTechniques), SectionText(s.watchOut),
                    SectionText(s.tips.value)]
                   + (if level == Intermediate then [SectionText(s.relatedLinks.value)] else [])
  {
  }

  /** The code prompt is the header, the level's paragraphs joined by blank lines, the
      advanced note at the advanced level only, and the input paragraph last. */
  lemma CodePromptLayout(code: string, lang: string, level: ExplainLevel)
    ensures BuildCodePrompt(code, lang, level)
         == CodeHeader(DisplayName(lang)) + Join(Blocks(Sections(level)), Paragraph)
            + (if level == Advanced then AnalysisNote else "") + InputSuffix(code)
  {
    AssembleLayout(CodeHeader(DisplayName(lang)), Sections(level), level == Advanced, code);
  }

  lemma AssembleLayout(h: string, s: LevelSections, advanced: bool, code: string)
    ensures AssemblePrompt(h, s, advanced, code)
         == h + Join(Blocks(s), Paragraph) + (if advanced then AnalysisNote else "") + InputSuffix(code)
  {
    var fixed := [SectionText(s.summary), SectionText(s.howItWorks),
                  SectionText(s.keyTechniques), SectionText(s.watchOut)];
    JoinFour(SectionText(s.summary), SectionText(s.howItWorks),
             SectionText(s.keyTechniques), SectionText(s.watchOut), Paragraph);
    assert h + FixedSections(s) == h + Join(fixed, Paragraph);
    var tipsBlocks := fixed + (if s.tips.Some? then [SectionText(s.tips.value)] else []);
    AppendSectionJoin(h, fixed, s.tips);
    AppendSectionJoin(h, tipsBlocks, s.relatedLinks);
    var withLinks := h + Join(Blocks(s), Paragraph);
    if !advanced {
      assert withLinks + "" == withLinks;
    }
  }

  lemma JoinFour(a: string, b: string, c: string, d: string, sep: string)
    ensures Join([a, b, c, d], sep) == a + sep + b + sep + c + sep + d
  {
    assert [a, b, c, d][1..] == [b, c, d];
    assert [b, c, d][1..] == [c, d];
    assert [c, d][1..] == [d];
    assert Join([c, d], sep) == c + sep + d;
    assert Join([b, c, d], sep) == b + sep + (c + sep + d);
    assert Join([a, b, c, d], sep) == a + sep + (b + sep + (c + sep + d));
  }

  /** Appending an optional section to `h + Join(blocks)` joins one more paragraph. */
  lemma AppendSectionJoin(h: string, blocks: seq<string>, section: Option<PromptSection>)
    requires |blocks| >= 1
    ensures AppendSection(h + Join(blocks, Paragraph), section)
         == h + Join(blocks + (if section.Some? then [SectionText(section.value)] else []), Paragraph)
  {
    if section.Some? {
      JoinAppend(blocks, SectionText(section.value), Paragraph);
    } else {
      assert blocks + [] == blocks;
    }
  }

  lemma EndsWithAppend(x: string, y: string)
    ensures EndsWith(x + y, y)
  {
    assert (x + y)[|x + y| - |y|..] == y;
  }

  lemma OccursAfter(a: string, t: string, b: string)
    ensures OccursAt(a + t + b, t, |a|)
  {
    assert (a + t + b)[|a|..|a| + |t|] == t;
  }

  /** The code prompt ends with the input label followed by the code, verbatim. */
  lemma CodePromptEndsWithCode(code: string, lang: string, level: ExplainLevel)
    ensures EndsWith(BuildCodePrompt(code, lang, level), "\n\n入力：\n" + code)
    ensures EndsWith(BuildCodePrompt(code, lang, level), code)
  {
    AssembleEndsWithCode(CodeHeader(DisplayName(lang)), Sections(level), level == Advanced, code);
  }

  lemma AssembleEndsWithCode(h: string, s: LevelSections, advanced: bool, code: string)
    ensures EndsWith(AssemblePrompt(h, s, advanced, code), InputSuffix(code))
    ensures EndsWith(AssemblePrompt(h, s, advanced, code), code)
  {
    var withLinks := AppendSection(AppendSection(h + FixedSections(s), s.tips), s.relatedLinks);
    var withNote := if advanced then withLinks + AnalysisNote else withLinks;
    EndsWithAppend(withNote, InputSuffix(code));
    LabelThenCode(withNote, "\n\n入力：\n", code);
  }

  lemma LabelThenCode(x: string, tag: string, code: string)
    ensures EndsWith(x + (tag + code), code)
  {
    assert x + (tag + code) == (x + tag) + code;
    EndsWithAppend(x + tag, code);
  }

  /** Only the advanced prompt carries the analysis request, right before the input. */
  lemma AdvancedNoteBeforeInput(code: string, lang: string, level: ExplainLevel)
    ensures level == Advanced ==>
      EndsWith(BuildCodePrompt(code, lang, level), AnalysisNote + InputSuffix(code))
    ensures level != Advanced ==>
      BuildCodePrompt(code, lang, level)
        == CodeHeader(DisplayName(lang)) + Join(Blocks(Sections(level)), Paragraph) + InputSuffix(code)
  {
    AssembleNote(CodeHeader(DisplayName(lang)), Sections(level), level == Advanced, code);
  }

  lemma AssembleNote(h: string, s: LevelSections, advanced: bool, code: string)
    ensures advanced ==> EndsWith(AssemblePrompt(h, s, advanced, code), AnalysisNote + InputSuffix(code))
    ensures !advanced ==>
      AssemblePrompt(h, s, advanced, code) == h + Join(Blocks(s), Paragraph) + InputSuffix(code)
  {
    AssembleLayout(h, s, advanced, code);
    var x := h + Join(Blocks(s), Paragraph);
    if advanced {
      assert x + AnalysisNote + InputSuffix(code) == x + (AnalysisNote + InputSuffix(code));
      EndsWithAppend(x, AnalysisNote + InputSuffix(code));
    } else {
      assert x + "" == x;
    }
  }

  /** The code prompt carries both instructions verbatim right after its opening
      sentence, whatever the level. */
  lemma CodePromptInstructions(code: string, lang: string, level: ExplainLevel)
    ensures OccursAt(BuildCodePrompt(code, lang, level), Instructions,
                     |CodeTask(DisplayName(lang))| + |Paragraph|)
  {
    AssembleInstructions(CodeTask(DisplayName(lang)), Sections(level), level == Advanced, code);
  }

  lemma AssembleInstructions(t: string, s: LevelSections, advanced: bool, code: string)
    ensures OccursAt(AssemblePrompt(t + Paragraph + Instructions + Paragraph + FormatLabel + Paragraph, s, advanced, code),
                     Instructions, |t| + |Paragraph|)
  {
    var h := t + Paragraph + Instructions + Paragraph + FormatLabel + Paragraph;
    var j := Join(Blocks(s), Paragraph);
    var n := if advanced then AnalysisNote else "";
    AssembleLayout(h, s, advanced, code);
    Regroup(t, Paragraph, Instructions, FormatLabel, j, n, InputSuffix(code));
    OccursAfter(t + Paragraph, Instructions, Paragraph + FormatLabel + Paragraph + (j + n + InputSuffix(code)));
  }

  lemma Regroup(t: string, p: string, i: string, f: string, j: string, n: string, c: string)
    ensures (t + p + i + p + f + p) + j + n + c == (t + p) + i + (p + f + p + (j + n + c))
  {
  }

  /** The audience word of the diff prompt. */
  function LevelWord(level: ExplainLevel): string {
    if level == Beginner then "初心者" else if level == Intermediate then "中級者" else "上級者"
  }

  /** The opening sentence of the diff prompt. */
  function DiffTask(langName: string, levelText: string): string {
    "以下の" + langName + "コードの変更を" + levelText + "向けに解説してください。"
  }

  /** The four sections the diff prompt requests; none depends on the level. */
  const DiffSections: seq<PromptSection> := [
    PromptSection("## 変更の概要", "何が追加/削除/変更されたか要約してください。"),
    PromptSection("## 変更後の構文・API", "変更後のコードで使用されている主要な構文やAPIを箇条書きで説明してください。"),
    PromptSection("## 注意点", "変更によって生じた新たな注意点や解消された問題を箇条書きで説明してください。"),
    PromptSection("## さらなる改善案", "さらに良い実装例があれば、15行以内のコードで示してください。")]

  function DiffHeadings(): string {
    SectionText(DiffSections[0]) + Paragraph + SectionText(DiffSections[1]) + Paragraph
    + SectionText(DiffSections[2]) + Paragraph + SectionText(DiffSections[3])
  }

  /** The two code paragraphs that end the diff prompt: before first, after second. */
  function BeforeAfter(before: string, after: string): string {
    "変更前のコード：\n" + before + "\n\n変更後のコード：\n" + after
  }

  /** `buildDiffPrompt(before, after, lang, level)`. */
  function BuildDiffPrompt(before: string, after: string, lang: string, level: ExplainLevel): string {
    DiffTask(DisplayName(lang), LevelWord(level)) + Paragraph + Instructions + Paragraph
    + DiffHeadings() + Paragraph + BeforeAfter(before, after)
  }

  /** The three levels have three different audience words. */
  lemma LevelWordInjective(l1: ExplainLevel, l2: ExplainLevel)
    requires LevelWord(l1) == LevelWord(l2)
    ensures l1 == l2
  {
  }

  /** Everything after the opening sentence of the diff prompt, the four headings
      included, is the same at every level. */
  lemma DiffRestIndependentOfLevel(before: string, after: string, lang: string, l1: ExplainLevel, l2: ExplainLevel)
    ensures var n := DisplayName(lang);
      BuildDiffPrompt(before, after, lang, l1)[|DiffTask(n, LevelWord(l1))|..]
        == BuildDiffPrompt(before, after, lang, l2)[|DiffTask(n, LevelWord(l2))|..]
  {
    var n := DisplayName(lang);
    var rest := Paragraph + Instructions + Paragraph + DiffHeadings() + Paragraph + BeforeAfter(before, after);
    DiffSplit(before, after, lang, l1, rest);
    DiffSplit(before, after, lang, l2, rest);
  }

  lemma DiffSplit(before: string, after: string, lang: string, level: ExplainLevel, rest: string)
    requires rest == Paragraph + Instructions + Paragraph + DiffHeadings() + Paragraph + BeforeAfter(before, after)
    ensures var t := DiffTask(DisplayName(lang), LevelWord(level));
      BuildDiffPrompt(before, after, lang, level) == t + rest
      && BuildDiffPrompt(before, after, lang, level)[|t|..] == rest
  {
    var t := DiffTask(DisplayName(lang), LevelWord(level));
    assert BuildDiffPrompt(before, after, lang, level) == t + rest;
    assert (t + rest)[|t|..] == rest;
  }

  /** The diff prompt carries both instructions verbatim right after its opening
      sentence. */
  lemma DiffPromptInstructions(before: string, after: string, lang: string, level: ExplainLevel)
    ensures OccursAt(BuildDiffPrompt(before, after, lang, level), Instructions,
                     |DiffTask(DisplayName(lang), LevelWord(level))| + |Paragraph|)
  {
    var t := DiffTask(DisplayName(lang), LevelWord(level));
    var d := DiffHeadings();
    var b := BeforeAfter(before, after);
    RegroupDiff(t, Paragraph, Instructions, d, b);
    OccursAfter(t + Paragraph, Instructions, Paragraph + d + Paragraph + b);
  }

  lemma RegroupDiff(t: string, p: string, i: string, d: string, b: string)
    ensures t + p + i + p + d + p + b == (t + p) + i + (p + d + p + b)
  {
  }

  /** The diff prompt ends with the before code and then the after code. */
  lemma DiffPromptEndsWithCodes(before: string, after: string, lang: string, level: ExplainLevel)
    ensures EndsWith(BuildDiffPrompt(before, after, lang, level),
                     "変更前のコード：\n" + before + "\n\n変更後のコード：\n" + after)
  {
    var x := DiffTask(DisplayName(lang), LevelWord(level)) + Paragraph + Instructions + Paragraph
             + DiffHeadings() + Paragraph;
    EndsWithAppend(x, BeforeAfter(before, after));
  }
}
