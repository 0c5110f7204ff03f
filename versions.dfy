/** `useVersionControl`: the saved snapshots of the code, newest first, numbered in the
    order they were saved; the selected snapshot; and the row for the current, unsaved
    code that the selectors show in front of them. */
module Versions {
  import opened Types
  import opened Text

  /** The id of the row for the current, unsaved code. */
  const CurrentId: string := "#現在"

  /** The id of the snapshot numbered `n`. */
  function VersionId(n: int): string {
    "#" + IntString(n)
  }

  /** The first version with the given id, as `Array.prototype.find` returns it. */
  function Find(versions: seq<CodeVersion>, id: string): (r: Option<CodeVersion>)
    ensures r.None? <==> forall k :: 0 <= k < |versions| ==> versions[k].id != id
    ensures r.Some? ==> exists k :: 0 <= k < |versions| && versions[k] == r.value && r.value.id == id
                                    && forall j :: 0 <= j < k ==> versions[j].id != id
    decreases |versions|
  {
    if |versions| == 0 then None
    else if versions[0].id == id then Some(versions[0])
    else
      var r := Find(versions[1..], id);
      assert forall k :: 1 <= k < |versions| ==> versions[k] == versions[1..][k - 1];
      r
  }

  /** The saved list as saving keeps it: entry `i` is the snapshot numbered
      `next - 1 - i`, with its id, so the numbers run down from `next - 1` to 1. */
  predicate Numbered(versions: seq<CodeVersion>, next: int) {
    && |versions| == next - 1
    && forall i :: 0 <= i < |versions| ==>
         versions[i].number == Some(next - 1 - i) && versions[i].id == VersionId(next - 1 - i)
  }

  /** The next number after loading: the stored value, or one past the number of loaded
      versions when the stored value is falsy (missing or 0). */
  function LoadedNextNumber(stored: Option<int>, loadedCount: nat): (n: int)
    ensures (stored.Some? && stored.value != 0) ==> n == stored.value
    ensures (stored.None? || stored.value == 0) ==> n == loadedCount + 1
  {
    if stored.Some? && stored.value != 0 then stored.value else loadedCount + 1
  }

  /** What reading the stored entry gives: nothing stored, an entry that does not parse,
      or the stored list with the stored next number (`None` when missing). */
  datatype Stored = NothingStored | Unreadable | Readable(versions: seq<CodeVersion>, nextVersionNumber: Option<int>)

  class VersionControl {
    var versions: seq<CodeVersion>
    var currentCode: string
    var selectedVersionId: string
    var nextVersionNumber: int

    /** The initial state of the hook. */
    constructor()
      ensures versions == [] && currentCode == "" && selectedVersionId == CurrentId
      ensures nextVersionNumber == 1
      ensures Numbered(versions, nextVersionNumber)
    {
      versions := [];
      currentCode := "";
      selectedVersionId := CurrentId;
      nextVersionNumber := 1;
    }

    /** The load effect: a readable entry replaces the list and sets the next number; a
        missing or unreadable one changes nothing. */
    method Load(stored: Stored)
      modifies this
      ensures stored.Readable? ==>
                versions == stored.versions
                && nextVersionNumber == LoadedNextNumber(stored.nextVersionNumber, |stored.versions|)
      ensures !stored.Readable? ==> versions == old(versions) && nextVersionNumber == old(nextVersionNumber)
      ensures currentCode == old(currentCode) && selectedVersionId == old(selectedVersionId)
    {
      if stored.Readable? {
        versions := stored.versions;
        nextVersionNumber := LoadedNextNumber(stored.nextVersionNumber, |stored.versions|);
      }
    }

    method SetCurrentCode(code: string)
      modifies this
      ensures currentCode == code
      ensures versions == old(versions) && selectedVersionId == old(selectedVersionId)
      ensures nextVersionNumber == old(nextVersionNumber)
    {
      currentCode := code;
    }

    /** `saveCurrentVersion`: puts a snapshot of the current code, numbered with the next
        number, in front of the list, advances the next number by one and returns the
        snapshot. The numbering of the list is kept. */
    method SaveCurrentVersion(now: int) returns (v: CodeVersion)
      modifies this
      ensures v == CodeVersion(VersionId(old(nextVersionNumber)), Some(old(nextVersionNumber)), old(currentCode), now)
      ensures versions == [v] + old(versions)
      ensures nextVersionNumber == old(nextVersionNumber) + 1
      ensures currentCode == old(currentCode) && selectedVersionId == old(selectedVersionId)
      ensures old(Numbered(versions, nextVersionNumber)) ==> Numbered(versions, nextVersionNumber)
    {
      v := CodeVersion(VersionId(nextVersionNumber), Some(nextVersionNumber), currentCode, now);
      var newVersions := [v] + versions;
      SaveKeepsNumbering(versions, nextVersionNumber, v);
      versions := newVersions;
      nextVersionNumber := nextVersionNumber + 1;
    }

    /** `selectVersion`: only the selection changes. */
    method SelectVersion(versionId: string)
      modifies this
      ensures selectedVersionId == versionId
      ensures versions == old(versions) && currentCode == old(currentCode)
      ensures nextVersionNumber == old(nextVersionNumber)
    {
      selectedVersionId := versionId;
    }

    /** `selectedVersionCode`: the current code for the current row, else the code of the
        first saved version with the selected id, else the empty string. */
    function SelectedVersionCode(): (code: string)
      reads this
      ensures selectedVersionId == CurrentId ==> code == currentCode
      ensures selectedVersionId != CurrentId && Find(versions, selectedVersionId).Some? ==>
        code == Find(versions, selectedVersionId).value.code
      ensures (selectedVersionId != CurrentId
               && forall k :: 0 <= k < |versions| ==> versions[k].id != selectedVersionId) ==> code == ""
    {
      if selectedVersionId == CurrentId then currentCode
      else
        var found := Find(versions, selectedVersionId);
        if found.Some? && found.value.code != "" then found.value.code else ""
    }

    /** `allVersions`: the current row in front of the saved versions. */
    function AllVersions(now: int): (all: seq<CodeVersion>)
      reads this
      ensures |all| == |versions| + 1 && all[1..] == versions
      ensures all[0].id == CurrentId && all[0].number == None && all[0].code == currentCode
    {
      [CodeVersion(CurrentId, None, currentCode, now)] + versions
    }
  }

  /** Putting the snapshot numbered `next` in front of a list numbered below it gives a
      list numbered below `next + 1`. */
  lemma SaveKeepsNumbering(versions: seq<CodeVersion>, next: int, v: CodeVersion)
    requires v.number == Some(next) && v.id == VersionId(next)
    ensures Numbered(versions, next) ==> Numbered([v] + versions, next + 1)
  {
    if Numbered(versions, next) {
      var vs := [v] + versions;
      forall i | 0 <= i < |vs|
        ensures vs[i].number == Some(next - i) && vs[i].id == VersionId(next - i)
      {
        if i > 0 {
          assert vs[i] == versions[i - 1];
        }
      }
    }
  }

  /** In a numbered list every id names exactly one version, numbers strictly decrease
      from the front, none is the current row's id, and they are exactly 1 to `next - 1`. */
  lemma NumberedProperties(versions: seq<CodeVersion>, next: int)
    requires Numbered(versions, next)
    ensures forall i, j :: 0 <= i < j < |versions| ==> versions[i].id != versions[j].id
    ensures forall i, j :: 0 <= i < j < |versions| ==> versions[j].number.value < versions[i].number.value
    ensures forall i :: 0 <= i < |versions| ==> versions[i].id != CurrentId
    ensures forall n :: 1 <= n < next ==> versions[next - 1 - n].number == Some(n)
  {
    forall i, j | 0 <= i < j < |versions|
      ensures versions[i].id != versions[j].id
    {
      if versions[i].id == versions[j].id {
        DropHash(IntString(next - 1 - i), IntString(next - 1 - j));
        IntStringInjective(next - 1 - i, next - 1 - j);
      }
    }
    forall i | 0 <= i < |versions|
      ensures versions[i].id != CurrentId
    {
      var u := IntString(next - 1 - i);
      IntStringSign(next - 1 - i);
      assert versions[i].id[1] == u[0];
      assert CurrentId[1] == '現';
    }
  }

  lemma DropHash(a: string, b: string)
    requires "#" + a == "#" + b
    ensures a == b
  {
    assert a == ("#" + a)[1..];
    assert b == ("#" + b)[1..];
  }

  /** The snapshot found for the k-th number's id is the one numbered k. */
  lemma FindNumbered(versions: seq<CodeVersion>, next: int, n: int)
    requires Numbered(versions, next) && 1 <= n < next
    ensures Find(versions, VersionId(n)) == Some(versions[next - 1 - n])
  {
    NumberedProperties(versions, next);
    FindOnly(versions, VersionId(n), next - 1 - n);
  }

  /** When exactly one version has the id, that version is found. */
  lemma {:induction false} FindOnly(versions: seq<CodeVersion>, id: string, k: nat)
    requires k < |versions| && versions[k].id == id
    requires forall j :: 0 <= j < |versions| && j != k ==> versions[j].id != id
    ensures Find(versions, id) == Some(versions[k])
    decreases |versions|
  {
    if k > 0 {
      var rest := versions[1..];
      assert forall j :: 0 <= j < |rest| && j != k - 1 ==> rest[j] == versions[j + 1];
      FindOnly(rest, id, k - 1);
    }
  }

  /** A load without a stored number, from a list numbered as saving leaves it, continues
      the numbering. */
  lemma LoadContinuesNumbering(versions: seq<CodeVersion>, next: int)
    requires Numbered(versions, next)
    ensures LoadedNextNumber(None, |versions|) == next
    ensures LoadedNextNumber(Some(0), |versions|) == next
  {
  }
}
