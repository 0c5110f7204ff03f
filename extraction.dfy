/** Turning the model's Markdown answer into an `Explanation`
    (`parseMarkdownToExplanation` and `extractBulletPoints`): the answer is cut at every
    `##` followed by whitespace, each piece is classified by keywords in its title line,
    and the fields are filled from the last piece of each kind, with fixed defaults. */
module Extraction {
  import opened Types
  import opened Text

  /** The length of the run of whitespace starting at `i` (the greedy `\s+`). */
  function SpaceRun(s: string, i: nat): (n: nat)
    requires i <= |s|
    ensures i + n <= |s|
    ensures forall k :: i <= k < i + n ==> IsSpace(s[k])
    ensures i + n < |s| ==> !IsSpace(s[i + n])
    decreases |s| - i
  {
    if i < |s| && IsSpace(s[i]) then 1 + SpaceRun(s, i + 1) else 0
  }

  /** The length of the run of ASCII digits starting at `i` (the greedy `\d+`). */
  function DigitRun(s: string, i: nat): (n: nat)
    requires i <= |s|
    ensures i + n <= |s|
    ensures forall k :: i <= k < i + n ==> IsDigit(s[k])
    ensures i + n < |s| ==> !IsDigit(s[i + n])
    decreases |s| - i
  {
    if i < |s| && IsDigit(s[i]) then 1 + DigitRun(s, i + 1) else 0
  }

  /** The separator `/##\s+/` matches at `i`. */
  predicate HeadingAt(s: string, i: nat) {
    i + 2 < |s| && s[i] == '#' && s[i + 1] == '#' && IsSpace(s[i + 2])
  }

  /** `markdown.split(/##\s+/g)`: the pieces between the separator's matches, found left
      to right, each match taking all the whitespace that follows `##`. */
  function SplitHeadings(s: string): (r: seq<string>)
    ensures |r| >= 1
    decreases |s|
  {
    if |s| == 0 then [""]
    else if HeadingAt(s, 0) then [""] + SplitHeadings(s[2 + SpaceRun(s, 2)..])
    else
      var rest := SplitHeadings(s[1..]);
      [[s[0]] + rest[0]] + rest[1..]
  }

  /** No piece contains the separator, and the first piece is a prefix of the text. */
  lemma {:induction false} SplitHeadingsPieces(s: string)
    ensures StartsWith(s, SplitHeadings(s)[0])
    ensures forall j, k :: 0 <= j < |SplitHeadings(s)| && 0 <= k ==> !HeadingAt(SplitHeadings(s)[j], k)
    decreases |s|
  {
    var r := SplitHeadings(s);
    if |s| > 0 {
      if HeadingAt(s, 0) {
        SplitHeadingsPieces(s[2 + SpaceRun(s, 2)..]);
        assert forall j :: 1 <= j < |r| ==> r[j] == SplitHeadings(s[2 + SpaceRun(s, 2)..])[j - 1];
      } else {
        var rest := SplitHeadings(s[1..]);
        SplitHeadingsPieces(s[1..]);
        FirstPieceNoHeading(s, rest[0]);
        assert forall j :: 1 <= j < |r| ==> r[j] == rest[j];
      }
    }
  }

  /** The first piece `s[0]` + `p`, where `p` is a separator-free prefix of `s[1..]`,
      is a separator-free prefix of `s` when no separator starts at 0. */
  lemma FirstPieceNoHeading(s: string, p: string)
    requires |s| > 0 && !HeadingAt(s, 0)
    requires StartsWith(s[1..], p) && forall k :: 0 <= k ==> !HeadingAt(p, k)
    ensures StartsWith(s, [s[0]] + p)
    ensures forall k :: 0 <= k ==> !HeadingAt([s[0]] + p, k)
  {
    var q := [s[0]] + p;
    assert q == s[..|q|];
    forall k | 0 <= k
      ensures !HeadingAt(q, k)
    {
      if k > 0 {
        assert HeadingAt(q, k) == HeadingAt(p, k - 1);
      } else {
        assert HeadingAt(q, 0) ==> HeadingAt(s, 0);
      }
    }
  }

  /** The kind of a section, by the first keyword group its title contains. */
  datatype Category = SummaryKind | HowItWorksKind | TechniquesKind | WatchOutKind | TipsKind | LinksKind | Unmatched

  function Classify(title: string): Category {
    if Contains(title, "概要") || Contains(title, "変更") then SummaryKind
    else if Contains(title, "動作") || Contains(title, "仕組み") then HowItWorksKind
    else if Contains(title, "技術") || Contains(title, "パターン") || Contains(title, "api")
         || Contains(title, "選択") then TechniquesKind
    else if Contains(title, "注意") || Contains(title, "問題") || Contains(title, "エッジケース") then WatchOutKind
    else if Contains(title, "ヒント") || Contains(title, "コツ") || Contains(title, "最適化") then TipsKind
    else if Contains(title, "参考") || Contains(title, "リンク") then LinksKind
    else Unmatched
  }

  /** The lines of a trimmed section. */
  function SectionLines(section: string): (lines: seq<string>)
    ensures |lines| >= 1
  {
    Split(Trim(section), '\n')
  }

  /** The lower-cased first line of the trimmed section. */
  function Title(section: string): string {
    ToLower(SectionLines(section)[0])
  }

  /** The remaining lines, joined and trimmed. */
  function Content(section: string): string {
    Trim(Join(SectionLines(section)[1..], "\n"))
  }

  function SectionKind(section: string): Category {
    Classify(Title(section))
  }

  /** A trimmed line starts with `-`, `*` or `・` followed by whitespace. */
  predicate BulletMarker(t: string) {
    |t| >= 2 && (t[0] == '-' || t[0] == '*' || t[0] == '・') && IsSpace(t[1])
  }

  /** A trimmed line starts with digits, a dot and whitespace. */
  predicate NumberMarker(t: string) {
    var d := DigitRun(t, 0);
    d >= 1 && d + 1 < |t| && t[d] == '.' && IsSpace(t[d + 1])
  }

  /** `replace(/^[-*・]\s+/, '')`. */
  function StripBullet(t: string): string {
    if BulletMarker(t) then t[1 + SpaceRun(t, 1)..] else t
  }

  /** `replace(/^\d+\.\s+/, '')`. */
  function StripNumber(t: string): string {
    if NumberMarker(t) then
      var d := DigitRun(t, 0);
      t[d + 1 + SpaceRun(t, d + 1)..]
    else t
  }

  /** The point a line gives, if it carries a marker. */
  function LinePoint(line: string): Option<string> {
    var t := Trim(line);
    if BulletMarker(t) || NumberMarker(t) then Some(StripNumber(StripBullet(t))) else None
  }

  /** The points of a list of lines, in order. */
  function Points(lines: seq<string>): seq<string>
    decreases |lines|
  {
    if |lines| == 0 then []
    else
      var p := LinePoint(lines[|lines| - 1]);
      Points(lines[..|lines| - 1]) + (if p.Some? then [p.value] else [])
  }

  /** What `extractBulletPoints(content)` returns. */
  function BulletPoints(content: string): (r: seq<string>)
    ensures |r| >= 1
  {
    var points := Points(Split(content, '\n'));
    if |points| > 0 then points else [content]
  }

  /** `extractBulletPoints`: pushes the stripped text of every marked line. */
  method ExtractBulletPoints(content: string) returns (r: seq<string>)
    ensures r == BulletPoints(content)
  {
    var lines := Split(content, '\n');
    var points: seq<string> := [];
    var i := 0;
    while i < |lines|
      invariant 0 <= i <= |lines|
      invariant points == Points(lines[..i])
    {
      PointsStep(lines, i);
      var trimmed := Trim(lines[i]);
      if BulletMarker(trimmed) || NumberMarker(trimmed) {
        points := points + [StripNumber(StripBullet(trimmed))];
      }
      i := i + 1;
    }
    assert lines[..i] == lines;
    r := if |points| > 0 then points else [content];
  }

  lemma PointsStep(lines: seq<string>, i: nat)
    requires i < |lines|
    ensures var p := LinePoint(lines[i]);
      Points(lines[..i + 1]) == Points(lines[..i]) + (if p.Some? then [p.value] else [])
  {
    assert lines[..i + 1][..i] == lines[..i];
  }

  /** With no marked line the whole content is the single point, even when it is empty. */
  lemma NoMarkerWholeContent(content: string)
    requires forall k :: 0 <= k < |Split(content, '\n')| ==> LinePoint(Split(content, '\n')[k]).None?
    ensures BulletPoints(content) == [content]
  {
    NoPoints(Split(content, '\n'));
  }

  lemma {:induction false} NoPoints(lines: seq<string>)
    requires forall k :: 0 <= k < |lines| ==> LinePoint(lines[k]).None?
    ensures Points(lines) == []
    decreases |lines|
  {
    if |lines| > 0 {
      NoPoints(lines[..|lines| - 1]);
    }
  }

  /** Every point comes from a marked line: it is that line's text with its markers
      removed. */
  lemma {:induction false} PointFromMarkedLine(lines: seq<string>, j: nat)
    requires j < |Points(lines)|
    ensures exists k :: 0 <= k < |lines| && LinePoint(lines[k]) == Some(Points(lines)[j])
    decreases |lines|
  {
    var init := lines[..|lines| - 1];
    if j < |Points(init)| {
      PointFromMarkedLine(init, j);
      var k :| 0 <= k < |init| && LinePoint(init[k]) == Some(Points(init)[j]);
      assert lines[k] == init[k];
    } else {
      assert LinePoint(lines[|lines| - 1]) == Some(Points(lines)[j]);
    }
  }

  /** Each line gives at most one point. */
  lemma {:induction false} PointsAtMostLines(lines: seq<string>)
    ensures |Points(lines)| <= |lines|
    decreases |lines|
  {
    if |lines| > 0 {
      PointsAtMostLines(lines[..|lines| - 1]);
    }
  }

  lemma EmptyContentPoints()
    ensures BulletPoints("") == [""]
  {
    var lines := Split("", '\n');
    assert lines == [""];
    assert LinePoint("") == None by {
      assert Trim("") == "";
      assert !BulletMarker("") && DigitRun("", 0) == 0;
    }
    assert Points(lines) == [] by {
      assert lines[..0] == [];
    }
  }

  /** Both markers are stripped, the bullet first: `- 1. x` gives `x`. */
  lemma NestedMarkers()
    ensures LinePoint("- 1. x") == Some("x")
  {
    var t := "- 1. x";
    assert !IsSpace(t[0]) && !IsSpace(t[|t| - 1]);
    TrimKeeps(t);
    StripBoth(t);
  }

  lemma StripBoth(t: string)
    requires t == "- 1. x"
    ensures BulletMarker(t) && StripNumber(StripBullet(t)) == "x"
  {
    assert BulletMarker(t);
    SpaceRunOne(t, 1);
    var u := t[2..];
    assert u == "1. x";
    assert DigitRun(u, 0) == 1 by {
      DigitRunOne(u);
    }
    assert NumberMarker(u);
    SpaceRunOne(u, 2);
    assert u[3..] == "x";
  }

  lemma SpaceRunOne(s: string, i: nat)
    requires i + 1 < |s| && IsSpace(s[i]) && !IsSpace(s[i + 1])
    ensures SpaceRun(s, i) == 1
  {
    assert SpaceRun(s, i + 1) == 0;
  }

  lemma DigitRunOne(s: string)
    requires 1 < |s| && IsDigit(s[0]) && !IsDigit(s[1])
    ensures DigitRun(s, 0) == 1
  {
    assert DigitRun(s, 1) == 0;
  }

  lemma TrimKeeps(t: string)
    requires |t| > 0 && !IsSpace(t[0]) && !IsSpace(t[|t| - 1])
    ensures Trim(t) == t
  {
  }

  /** A section as the loop sees it: its kind and its content. */
  datatype Entry = Entry(kind: Category, content: string)

  function EntryOf(section: string): Entry {
    Entry(SectionKind(section), Content(section))
  }

  /** Each section turned into its entry, in order. */
  function MapSections(sections: seq<string>, f: string -> Entry): (es: seq<Entry>)
    ensures |es| == |sections|
    decreases |sections|
  {
    if |sections| == 0 then []
    else MapSections(sections[..|sections| - 1], f) + [f(sections[|sections| - 1])]
  }

  function Entries(sections: seq<string>): (es: seq<Entry>)
    ensures |es| == |sections|
  {
    MapSections(sections, EntryOf)
  }

  lemma {:induction false} MapSectionsIndex(sections: seq<string>, f: string -> Entry, k: nat)
    requires k < |sections|
    ensures MapSections(sections, f)[k] == f(sections[k])
    decreases |sections|
  {
    if k < |sections| - 1 {
      MapSectionsIndex(sections[..|sections| - 1], f, k);
    }
  }

  /** The fields being built while the sections are read. */
  datatype Draft = Draft(
    summary: string,
    howItWorks: seq<string>,
    keyTechniques: seq<string>,
    watchOut: seq<string>,
    tips: Option<seq<string>>,
    relatedLinks: Option<seq<string>>)

  const Empty: Draft := Draft("", [], [], [], None, None)

  /** One pass of the loop body over a section. */
  function Apply(d: Draft, e: Entry): Draft {
    match e.kind
    case SummaryKind => d.(summary := e.content)
    case HowItWorksKind => d.(howItWorks := BulletPoints(e.content))
    case TechniquesKind => d.(keyTechniques := BulletPoints(e.content))
    case WatchOutKind => d.(watchOut := BulletPoints(e.content))
    case TipsKind =>
      var points := BulletPoints(e.content);
      if |points| > 0 then d.(tips := Some(points)) else d
    case LinksKind =>
      var links := BulletPoints(e.content);
      if |links| > 0 then d.(relatedLinks := Some(links)) else d
    case Unmatched => d
  }

  /** The loop over the sections, from the empty draft. */
  function Fold(entries: seq<Entry>): Draft
    decreases |entries|
  {
    if |entries| == 0 then Empty
    else Apply(Fold(entries[..|entries| - 1]), entries[|entries| - 1])
  }

  const HowItWorksDefault: string := "解析結果を取得できませんでした"
  const TechniquesDefault: string := "使用されている技術を特定できませんでした"
  const WatchOutDefault: string := "特に注意すべき点は見つかりませんでした"

  /** How many UTF-16 code units the character takes: two above the Basic Multilingual
      Plane, one otherwise. */
  function Utf16Width(c: char): nat {
    if c as int >= 0x1_0000 then 2 else 1
  }

  /** The length of a string as JavaScript counts it, in UTF-16 code units. */
  function Utf16Length(s: string): nat
    decreases |s|
  {
    if |s| == 0 then 0 else Utf16Width(s[0]) + Utf16Length(s[1..])
  }

  /** `s.slice(0, n)`: the longest prefix of `s` that fits in `n` UTF-16 code units. */
  function SliceUnits(s: string, n: nat): (r: string)
    ensures r <= s && Utf16Length(r) <= n
    ensures r == s || (|r| < |s| && Utf16Length(r) + Utf16Width(s[|r|]) > n)
    decreases |s|
  {
    if |s| == 0 || Utf16Width(s[0]) > n then []
    else
      assert s == [s[0]] + s[1..];
      [s[0]] + SliceUnits(s[1..], n - Utf16Width(s[0]))
  }

  /** On text of the Basic Multilingual Plane a code unit is a character, and the slice
      keeps the first `n` characters. */
  lemma {:induction false} SliceUnitsBmp(s: string, n: nat)
    requires forall k :: 0 <= k < |s| ==> s[k] as int < 0x1_0000
    ensures SliceUnits(s, n) == if |s| <= n then s else s[..n]
    decreases |s|
  {
    if |s| > 0 && n > 0 {
      var rest := s[1..];
      SliceUnitsBmp(rest, n - 1);
      SliceUnitsStep(s, n);
      if |s| <= n {
        assert s == [s[0]] + rest;
      } else {
        assert s[..n] == [s[0]] + rest[..n - 1];
      }
    }
  }

  lemma SliceUnitsStep(s: string, n: nat)
    requires 0 < |s| && s[0] as int < 0x1_0000 && 0 < n
    ensures SliceUnits(s, n) == [s[0]] + SliceUnits(s[1..], n - 1)
  {
  }

  /** `markdown.slice(0, 200) + '...'`. */
  function SummaryFallback(markdown: string): string {
    SliceUnits(markdown, 200) + "..."
  }

  /** The defaults filled in after the loop. */
  function Finish(d: Draft, markdown: string): Explanation {
    Explanation(
      if d.summary == "" then SummaryFallback(markdown) else d.summary,
      if |d.howItWorks| == 0 then [HowItWorksDefault] else d.howItWorks,
      if |d.keyTechniques| == 0 then [TechniquesDefault] else d.keyTechniques,
      if |d.watchOut| == 0 then [WatchOutDefault] else d.watchOut,
      d.tips,
      d.relatedLinks)
  }

  /** What `parseMarkdownToExplanation(markdown)` returns. */
  function ParseMarkdown(markdown: string): Explanation {
    Finish(Fold(Entries(SplitHeadings(markdown))), markdown)
  }

  /** `parseMarkdownToExplanation`: the loop over the sections reassigning the six
      fields, then the defaults. */
  method ParseMarkdownToExplanation(markdown: string) returns (e: Explanation)
    ensures e == ParseMarkdown(markdown)
  {
    var sections := SplitHeadings(markdown);
    var summary := "";
    var howItWorks: seq<string> := [];
    var keyTechniques: seq<string> := [];
    var watchOut: seq<string> := [];
    var tips: Option<seq<string>> := None;
    var relatedLinks: Option<seq<string>> := None;
    var i := 0;
    assert sections[..0] == [];
    while i < |sections|
      invariant 0 <= i <= |sections|
      invariant Draft(summary, howItWorks, keyTechniques, watchOut, tips, relatedLinks)
             == Fold(Entries(sections[..i]))
    {
      var section := sections[i];
      EntriesStep(sections, i);
      var lines := Split(Trim(section), '\n');
      var title := ToLower(lines[0]);
      var content := Trim(Join(lines[1..], "\n"));
      if Contains(title, "概要") || Contains(title, "変更") {
        summary := content;
      } else if Contains(title, "動作") || Contains(title, "仕組み") {
        howItWorks := ExtractBulletPoints(content);
      } else if Contains(title, "技術") || Contains(title, "パターン") || Contains(title, "api")
                || Contains(title, "選択") {
        keyTechniques := ExtractBulletPoints(content);
      } else if Contains(title, "注意") || Contains(title, "問題") || Contains(title, "エッジケース") {
        watchOut := ExtractBulletPoints(content);
      } else if Contains(title, "ヒント") || Contains(title, "コツ") || Contains(title, "最適化") {
        var points := ExtractBulletPoints(content);
        if |points| > 0 {
          tips := Some(points);
        }
      } else if Contains(title, "参考") || Contains(title, "リンク") {
        var links := ExtractBulletPoints(content);
        if |links| > 0 {
          relatedLinks := Some(links);
        }
      }
      i := i + 1;
    }
    assert sections[..i] == sections;
    if summary == "" {
      summary := SummaryFallback(markdown);
    }
    if |howItWorks| == 0 {
      howItWorks := [HowItWorksDefault];
    }
    if |keyTechniques| == 0 {
      keyTechniques := [TechniquesDefault];
    }
    if |watchOut| == 0 {
      watchOut := [WatchOutDefault];
    }
    e := Explanation(summary, howItWorks, keyTechniques, watchOut, tips, relatedLinks);
  }

  lemma EntriesStep(sections: seq<string>, i: nat)
    requires i < |sections|
    ensures Fold(Entries(sections[..i + 1])) == Apply(Fold(Entries(sections[..i])), EntryOf(sections[i]))
  {
    assert sections[..i + 1][..i] == sections[..i];
    var es := Entries(sections[..i + 1]);
    assert es[..|es| - 1] == Entries(sections[..i]);
  }

  /** The content of the last section of a kind, if any. */
  function LastOf(entries: seq<Entry>, c: Category): Option<string>
    decreases |entries|
  {
    if |entries| == 0 then None
    else if entries[|entries| - 1].kind == c then Some(entries[|entries| - 1].content)
    else LastOf(entries[..|entries| - 1], c)
  }

  /** There is no section of a kind exactly when none of the sections has that kind. */
  lemma {:induction false} LastOfNoneIff(entries: seq<Entry>, c: Category)
    ensures LastOf(entries, c).None? <==> forall k :: 0 <= k < |entries| ==> entries[k].kind != c
    decreases |entries|
  {
    if |entries| > 0 {
      var init := entries[..|entries| - 1];
      LastOfNoneIff(init, c);
      assert forall k :: 0 <= k < |init| ==> init[k] == entries[k];
    }
  }

  /** The content of the last section of a kind belongs to a section of that kind, and
      no later section has that kind. */
  lemma {:induction false} LastOfIsLast(entries: seq<Entry>, c: Category)
    requires LastOf(entries, c).Some?
    ensures exists k :: 0 <= k < |entries| && entries[k] == Entry(c, LastOf(entries, c).value)
              && forall j :: k < j < |entries| ==> entries[j].kind != c
    decreases |entries|
  {
    var n := |entries|;
    if entries[n - 1].kind != c {
      var init := entries[..n - 1];
      LastOfIsLast(init, c);
      var k :| 0 <= k < |init| && init[k] == Entry(c, LastOf(init, c).value)
               && forall j :: k < j < |init| ==> init[j].kind != c;
      assert entries[k] == init[k];
      assert forall j :: k < j < n ==> entries[j].kind != c by {
        forall j | k < j < n
          ensures entries[j].kind != c
        {
          if j < n - 1 {
            assert entries[j] == init[j];
          }
        }
      }
    } else {
      assert entries[n - 1] == Entry(c, LastOf(entries, c).value);
    }
  }

  /* A later section of a kind overrides an earlier one and an unmatched section changes
     nothing: each field is given by the last section of its kind alone. */

  lemma {:induction false} FoldSummary(entries: seq<Entry>)
    ensures Fold(entries).summary == (if LastOf(entries, SummaryKind).Some? then LastOf(entries, SummaryKind).value else "")
    decreases |entries|
  {
    if |entries| > 0 {
      FoldSummary(entries[..|entries| - 1]);
    }
  }

  lemma {:induction false} FoldHowItWorks(entries: seq<Entry>)
    ensures Fold(entries).howItWorks == (if LastOf(entries, HowItWorksKind).Some? then BulletPoints(LastOf(entries, HowItWorksKind).value) else [])
    decreases |entries|
  {
    if |entries| > 0 {
      FoldHowItWorks(entries[..|entries| - 1]);
    }
  }

  lemma {:induction false} FoldTechniques(entries: seq<Entry>)
    ensures Fold(entries).keyTechniques == (if LastOf(entries, TechniquesKind).Some? then BulletPoints(LastOf(entries, TechniquesKind).value) else [])
    decreases |entries|
  {
    if |entries| > 0 {
      FoldTechniques(entries[..|entries| - 1]);
    }
  }

  lemma {:induction false} FoldWatchOut(entries: seq<Entry>)
    ensures Fold(entries).watchOut == (if LastOf(entries, WatchOutKind).Some? then BulletPoints(LastOf(entries, WatchOutKind).value) else [])
    decreases |entries|
  {
    if |entries| > 0 {
      FoldWatchOut(entries[..|entries| - 1]);
    }
  }

  lemma {:induction false} FoldTips(entries: seq<Entry>)
    ensures Fold(entries).tips == (if LastOf(entries, TipsKind).Some? then Some(BulletPoints(LastOf(entries, TipsKind).value)) else None)
    decreases |entries|
  {
    if |entries| > 0 {
      FoldTips(entries[..|entries| - 1]);
    }
  }

  lemma {:induction false} FoldLinks(entries: seq<Entry>)
    ensures Fold(entries).relatedLinks == (if LastOf(entries, LinksKind).Some? then Some(BulletPoints(LastOf(entries, LinksKind).value)) else None)
    decreases |entries|
  {
    if |entries| > 0 {
      FoldLinks(entries[..|entries| - 1]);
    }
  }

  /** The sections of an answer as the loop sees them. */
  function AnswerEntries(markdown: string): seq<Entry> {
    Entries(SplitHeadings(markdown))
  }

  /** The three list fields are never empty: each is the points of the last section of
      its kind, or its fixed default when there is none. */
  lemma ParseListsNeverEmpty(markdown: string)
    ensures var e := ParseMarkdown(markdown);
      var es := AnswerEntries(markdown);
      && e.howItWorks == (if LastOf(es, HowItWorksKind).Some? then BulletPoints(LastOf(es, HowItWorksKind).value) else [HowItWorksDefault])
      && e.keyTechniques == (if LastOf(es, TechniquesKind).Some? then BulletPoints(LastOf(es, TechniquesKind).value) else [TechniquesDefault])
      && |e.howItWorks| > 0 && |e.keyTechniques| > 0 && |e.watchOut| > 0
  {
    FoldHowItWorks(AnswerEntries(markdown));
    FoldTechniques(AnswerEntries(markdown));
  }

  lemma ParseWatchOut(markdown: string)
    ensures var e := ParseMarkdown(markdown);
      var es := AnswerEntries(markdown);
      e.watchOut == (if LastOf(es, WatchOutKind).Some? then BulletPoints(LastOf(es, WatchOutKind).value) else [WatchOutDefault])
  {
    FoldWatchOut(AnswerEntries(markdown));
  }

  /** Without a summary section with text, the summary is the start of the answer. */
  lemma SummaryFallsBack(markdown: string)
    requires var es := AnswerEntries(markdown);
      LastOf(es, SummaryKind).None? || LastOf(es, SummaryKind).value == ""
    ensures ParseMarkdown(markdown).summary == SummaryFallback(markdown)
    ensures var r := ParseMarkdown(markdown).summary;
      && EndsWith(r, "...")
      && r[..|r| - 3] <= markdown && Utf16Length(r[..|r| - 3]) <= 200
      && (r[..|r| - 3] == markdown || Utf16Length(r[..|r| - 3]) + Utf16Width(markdown[|r| - 3]) > 200)
  {
    FoldSummary(AnswerEntries(markdown));
    var m := SliceUnits(markdown, 200);
    assert (m + "...")[|m + "..."| - 3..] == "...";
    assert (m + "...")[..|m + "..."| - 3] == m;
  }

  /** `tips` and `relatedLinks` are present exactly when a section of their kind occurs. */
  lemma OptionalFieldsIff(markdown: string)
    ensures var e := ParseMarkdown(markdown);
      var es := AnswerEntries(markdown);
      && (e.tips.Some? <==> exists k :: 0 <= k < |es| && es[k].kind == TipsKind)
      && (e.relatedLinks.Some? <==> exists k :: 0 <= k < |es| && es[k].kind == LinksKind)
  {
    var es := AnswerEntries(markdown);
    FoldTips(es);
    FoldLinks(es);
    LastOfNoneIff(es, TipsKind);
    LastOfNoneIff(es, LinksKind);
  }

  /** The k-th entry is the k-th piece of the split answer, classified by its title. */
  lemma AnswerEntry(markdown: string, k: nat)
    requires k < |SplitHeadings(markdown)|
    ensures AnswerEntries(markdown)[k]
         == Entry(Classify(Title(SplitHeadings(markdown)[k])), Content(SplitHeadings(markdown)[k]))
  {
    MapSectionsIndex(SplitHeadings(markdown), EntryOf, k);
  }

  /** First match wins: a title with both `変更` and `api` is a summary title. */
  lemma FirstMatchWins()
    ensures Classify("変更とapi") == SummaryKind
  {
    var t := "変更とapi";
    assert OccursAt(t, "変更", 0);
  }

  /** Keyword tests see the lower-cased title, so `API` counts as `api`. */
  lemma UpperCaseTitle()
    ensures Classify(ToLower("API")) == TechniquesKind
  {
    assert ToLower("API") == "api";
    assert OccursAt("api", "api", 0);
    NoKeyword("api");
  }

  /** `api` contains none of the keywords checked before `api`. */
  lemma NoKeyword(t: string)
    requires t == "api"
    ensures !Contains(t, "概要") && !Contains(t, "変更") && !Contains(t, "動作") && !Contains(t, "仕組み")
    ensures !Contains(t, "技術") && !Contains(t, "パターン")
  {
    forall w | w in ["概要", "変更", "動作", "仕組み", "技術", "パターン"]
      ensures !Contains(t, w)
    {
      if Contains(t, w) {
        ContainsFirstChar(t, w);
      }
    }
  }
}
