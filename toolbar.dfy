/** The decisions of the toolbar: the guards that let a selected value through to its
    change handler, the options of the base and head version selectors, and when each
    button is disabled. */
module Toolbar {
  import opened Types
  import opened Text
  import opened Versions

  /** The identifiers `isLanguage` accepts. */
  const ValidLanguages: seq<string> :=
    ["typescript", "javascript", "typescriptreact", "javascriptreact", "python", "go", "ruby", "php", "vue"]

  /** The option values of the language selector, in the order shown. */
  const LanguageOptions: seq<string> :=
    ["typescript", "typescriptreact", "javascript", "javascriptreact", "python", "go", "ruby", "php", "vue"]

  predicate IsLanguage(value: string) {
    value in ValidLanguages
  }

  /** The string value of a level and of a tone. */
  function LevelValue(level: ExplainLevel): string {
    match level
    case Beginner => "beginner"
    case Intermediate => "intermediate"
    case Advanced => "advanced"
  }

  function ToneValue(tone: ExplainTone): string {
    match tone
    case Casual => "casual"
    case Normal => "normal"
    case Formal => "formal"
  }

  /** `isExplainLevel`, giving the level it accepts. */
  function ParseLevel(value: string): (r: Option<ExplainLevel>)
    ensures r.Some? <==> (value == "beginner" || value == "intermediate" || value == "advanced")
  {
    if value == "beginner" then Some(Beginner)
    else if value == "intermediate" then Some(Intermediate)
    else if value == "advanced" then Some(Advanced)
    else None
  }

  /** `isExplainTone`, giving the tone it accepts. */
  function ParseTone(value: string): (r: Option<ExplainTone>)
    ensures r.Some? <==> (value == "casual" || value == "normal" || value == "formal")
  {
    if value == "casual" then Some(Casual)
    else if value == "normal" then Some(Normal)
    else if value == "formal" then Some(Formal)
    else None
  }

  /** The language after a change event: the new value when the guard accepts it, else
      the handler is not called and the language stays. */
  function LanguageAfterChange(current: string, value: string): (r: string)
    ensures IsLanguage(value) ==> r == value
    ensures !IsLanguage(value) ==> r == current
  {
    if IsLanguage(value) then value else current
  }

  function LevelAfterChange(current: ExplainLevel, value: string): (r: ExplainLevel)
    ensures ParseLevel(value).Some? ==> LevelValue(r) == value
    ensures ParseLevel(value).None? ==> r == current
  {
    match ParseLevel(value)
    case Some(level) => level
    case None => current
  }

  function ToneAfterChange(current: ExplainTone, value: string): (r: ExplainTone)
    ensures ParseTone(value).Some? ==> ToneValue(r) == value
    ensures ParseTone(value).None? ==> r == current
  {
    match ParseTone(value)
    case Some(tone) => tone
    case None => current
  }

  /** Every option of the three selectors passes its guard, and the level and tone
      guards read back exactly the values the selectors offer. */
  lemma OptionsPassGuards()
    ensures forall k :: 0 <= k < |LanguageOptions| ==> IsLanguage(LanguageOptions[k])
    ensures forall l :: ParseLevel(LevelValue(l)) == Some(l)
    ensures forall t :: ParseTone(ToneValue(t)) == Some(t)
  {
    assert forall k :: 0 <= k < |LanguageOptions| ==> LanguageOptions[k] in ValidLanguages by {
      forall k | 0 <= k < |LanguageOptions|
        ensures LanguageOptions[k] in ValidLanguages
      {
        var i := [0, 2, 1, 3, 4, 5, 6, 7, 8][k];
        assert ValidLanguages[i] == LanguageOptions[k];
      }
    }
  }

  /** A value outside the listed ones never reaches a handler. */
  lemma RejectedValues(current: string, level: ExplainLevel, tone: ExplainTone)
    ensures LanguageAfterChange(current, "typescriptx") == current
    ensures LanguageAfterChange(current, "TypeScript") == current
    ensures LevelAfterChange(level, "Beginner") == level
    ensures ToneAfterChange(tone, "") == tone
  {
    assert "typescriptx" !in ValidLanguages;
    assert "TypeScript" !in ValidLanguages;
  }

  /** The ids of the versions that have a number, in order. */
  function NumberedIds(versions: seq<CodeVersion>): (ids: seq<string>)
    ensures |ids| <= |versions|
    decreases |versions|
  {
    if |versions| == 0 then []
    else
      var rest := NumberedIds(versions[1..]);
      if versions[0].number.Some? then [versions[0].id] + rest else rest
  }

  /** `filter` then `map`: the ids of a list are those of its parts in the same order,
      and a single version gives its id exactly when it has a number. */
  lemma {:induction false} NumberedIdsFilter(a: seq<CodeVersion>, b: seq<CodeVersion>, v: CodeVersion)
    ensures NumberedIds(a + b) == NumberedIds(a) + NumberedIds(b)
    ensures NumberedIds([v]) == if v.number.Some? then [v.id] else []
    decreases |a|
  {
    if |a| > 0 {
      NumberedIdsFilter(a[1..], b, v);
      assert (a + b)[1..] == a[1..] + b;
    } else {
      assert a + b == b;
    }
  }

  /** The base selector: `-` followed by the numbered versions. */
  function BaseOptions(versions: seq<CodeVersion>): seq<string> {
    ["-"] + NumberedIds(versions)
  }

  /** An id is offered after `-` exactly when some numbered version has it. */
  lemma {:induction false} NumberedIdsIff(versions: seq<CodeVersion>, id: string)
    ensures id in NumberedIds(versions)
        <==> exists k :: 0 <= k < |versions| && versions[k].number.Some? && versions[k].id == id
    decreases |versions|
  {
    if |versions| > 0 {
      NumberedIdsIff(versions[1..], id);
      assert forall k :: 1 <= k < |versions| ==> versions[k] == versions[1..][k - 1];
      if exists k :: 1 <= k < |versions| && versions[k].number.Some? && versions[k].id == id {
        var k :| 1 <= k < |versions| && versions[k].number.Some? && versions[k].id == id;
        assert versions[1..][k - 1] == versions[k];
      }
    }
  }

  /** For the list the version hook shows, the base options are `-` and the saved ids:
      the current row is never a base. */
  lemma BaseExcludesCurrent(current: CodeVersion, saved: seq<CodeVersion>, next: int)
    requires current.id == CurrentId && current.number == None
    requires Numbered(saved, next)
    ensures CurrentId !in BaseOptions([current] + saved)[1..]
    ensures forall k :: 0 <= k < |saved| ==> saved[k].id in BaseOptions([current] + saved)[1..]
  {
    var all := [current] + saved;
    NumberedProperties(saved, next);
    assert BaseOptions(all)[1..] == NumberedIds(all);
    NumberedIdsIff(all, CurrentId);
    forall k | 0 <= k < |saved|
      ensures saved[k].id in NumberedIds(all)
    {
      NumberedIdsIff(all, saved[k].id);
      assert all[k + 1] == saved[k];
    }
    assert forall k :: 0 < k < |all| ==> all[k] == saved[k - 1];
  }

  /** The disabled mark of a head candidate. */
  function HeadDisabled(versions: seq<CodeVersion>, baseVersionId: string, candidate: CodeVersion): (d: bool)
    ensures d <==> baseVersionId != "-" && Find(versions, baseVersionId).Some?
                   && candidate.number.Some? && Find(versions, baseVersionId).value.number.Some?
                   && candidate.number.value < Find(versions, baseVersionId).value.number.value
  {
    var baseVersion := if baseVersionId == "-" then None else Find(versions, baseVersionId);
    baseVersion.Some? && candidate.number.Some? && baseVersion.value.number.Some?
      && candidate.number.value < baseVersion.value.number.value
  }

  datatype HeadOption = HeadOption(value: string, disabled: bool)

  /** The head selector: every version, each with its disabled mark. */
  function HeadOptions(versions: seq<CodeVersion>, baseVersionId: string): (opts: seq<HeadOption>)
    ensures |opts| == |versions|
    ensures forall k :: 0 <= k < |versions| ==>
      opts[k] == HeadOption(versions[k].id, HeadDisabled(versions, baseVersionId, versions[k]))
  {
    seq(|versions|, k requires 0 <= k < |versions| =>
      HeadOption(versions[k].id, HeadDisabled(versions, baseVersionId, versions[k])))
  }

  /** The current row and a candidate with the base's own number are never disabled. */
  lemma HeadNeverDisabled(versions: seq<CodeVersion>, baseVersionId: string, candidate: CodeVersion)
    ensures candidate.number.None? ==> !HeadDisabled(versions, baseVersionId, candidate)
    ensures (Find(versions, baseVersionId).Some?
             && candidate.number == Find(versions, baseVersionId).value.number) ==>
              !HeadDisabled(versions, baseVersionId, candidate)
  {
  }

  /** On the list the version hook shows, with a saved base, the disabled head candidates
      are exactly the saved versions after the base, that is, the older ones. */
  lemma HeadDisabledOlder(current: CodeVersion, saved: seq<CodeVersion>, next: int, b: nat, j: nat)
    requires current.id == CurrentId && current.number == None
    requires Numbered(saved, next)
    requires b < |saved| && j < |saved| + 1
    ensures var all := [current] + saved;
      HeadDisabled(all, saved[b].id, all[j]) <==> j > b + 1
  {
    var all := [current] + saved;
    FindSavedBase(current, saved, next, b);
    var candidate := all[j];
    assert j == 0 ==> candidate.number.None?;
    assert j > 0 ==> candidate == saved[j - 1];
    assert j > 0 ==> candidate.number == Some(next - j);
  }

  /** In the shown list, a saved base id names that saved version. */
  lemma FindSavedBase(current: CodeVersion, saved: seq<CodeVersion>, next: int, b: nat)
    requires current.id == CurrentId && current.number == None
    requires Numbered(saved, next)
    requires b < |saved|
    ensures Find([current] + saved, saved[b].id) == Some(saved[b])
    ensures saved[b].id != "-" && saved[b].number == Some(next - 1 - b)
  {
    var n := next - 1 - b;
    assert saved[b].id == VersionId(n);
    FindNumbered(saved, next, n);
    NumberedProperties(saved, next);
    FindBehindCurrent(current, saved, saved[b].id);
    VersionIdNotDash(n);
  }

  lemma FindBehindCurrent(current: CodeVersion, saved: seq<CodeVersion>, id: string)
    requires current.id != id
    ensures Find([current] + saved, id) == Find(saved, id)
  {
    assert ([current] + saved)[1..] == saved;
  }

  lemma VersionIdNotDash(n: int)
    ensures VersionId(n) != "-"
  {
    IntStringSign(n);
    assert |VersionId(n)| >= 2;
  }

  /** Save is disabled for blank code and for code equal to the saved code. */
  predicate SaveDisabled(code: string, savedCode: string) {
    Trim(code) == "" || code == savedCode
  }

  /** Explain is disabled for blank code and while a diff explanation runs. */
  predicate ExplainDisabled(code: string, isExplainingDiff: bool) {
    Trim(code) == "" || isExplainingDiff
  }

  /** Diff explain is disabled unless a diff is possible, and while an explanation runs. */
  predicate DiffDisabled(canExplainDiff: bool, isExplaining: bool) {
    !canExplainDiff || isExplaining
  }
}
