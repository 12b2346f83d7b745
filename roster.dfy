/**
 * The roster list operations that sit between a fetch from the record store
 * and the write back: lookup by `rowId`, the supervisor choices, the delete
 * guard, form normalisation, and the team-array updates of saving a member
 * and of moving a member between teams.
 */
module Roster {
  import opened Maybe
  import opened Records
  import opened Ranks

  // ---- Lookup ----

  /** `findIndex(m => m.rowId === id)`: the first position holding `id`, or -1. */
  function FirstIndexWithId(members: seq<Member>, id: string): (i: int)
    ensures -1 <= i < |members|
    ensures i >= 0 ==> Id(members[i]) == id && forall j :: 0 <= j < i ==> Id(members[j]) != id
    ensures i == -1 <==> forall j :: 0 <= j < |members| ==> Id(members[j]) != id
  {
    if members == [] then -1
    else if Id(members[0]) == id then 0
    else
      var j := FirstIndexWithId(members[1..], id);
      if j < 0 then -1 else j + 1
  }

  /** `findMemberById`: no member for an empty id, else the first record with that `rowId`. */
  function FindMemberById(id: string, members: seq<Member>): (r: Option<Member>)
    ensures r.Some? ==> id != "" && Id(r.value) == id
    ensures r.Some? ==> exists i :: 0 <= i < |members| && members[i] == r.value
                                   && forall j :: 0 <= j < i ==> Id(members[j]) != id
    ensures r.None? <==> id == "" || forall m :: m in members ==> Id(m) != id
  {
    if id == "" then None
    else
      var i := FirstIndexWithId(members, id);
      if i < 0 then None else Some(members[i])
  }

  // ---- Supervisor choices ----

  predicate IsSupervisorCandidate(m: Member, currentId: string) {
    HasRowId(m) && Prop(m, "rank") in SupervisorRanks && Id(m) != currentId
  }

  /**
   * The records offered in the supervisor drop-down: those with a `rowId`, a
   * supervisor rank, and a `rowId` other than the member being edited, in
   * roster order (the alphabetical sort for display is not modelled).
   */
  function SupervisorCandidates(members: seq<Member>, currentId: string): (r: seq<Member>)
    ensures forall m :: m in r <==> m in members && IsSupervisorCandidate(m, currentId)
    ensures |r| <= |members|
  {
    if members == [] then []
    else
      var rest := SupervisorCandidates(members[1..], currentId);
      if IsSupervisorCandidate(members[0], currentId) then [members[0]] + rest else rest
  }

  /** Each candidate is offered as often as the roster holds it; every other record is not offered. */
  lemma {:induction false} SupervisorCandidatesCount(members: seq<Member>, currentId: string, m: Member)
    ensures multiset(SupervisorCandidates(members, currentId))[m]
         == if IsSupervisorCandidate(m, currentId) then multiset(members)[m] else 0
  {
    if members != [] {
      assert members == [members[0]] + members[1..];
      SupervisorCandidatesCount(members[1..], currentId, m);
    }
  }

  /** Every offered supervisor ranks E-5 or above, and no member is offered as their own supervisor. */
  lemma CandidatesOutrankE4(members: seq<Member>, currentId: string, m: Member)
    requires m in SupervisorCandidates(members, currentId)
    ensures RankOrder(Prop(m, "rank")) >= 5 && Id(m) != currentId
  {
    var rank := Prop(m, "rank");
    var k :| 0 <= k < |SupervisorRanks| && SupervisorRanks[k] == rank;
    if k == 0 { assert rank == "E-5"; } else if k == 1 { assert rank == "E-6"; }
    else if k == 2 { assert rank == "E-7"; } else if k == 3 { assert rank == "E-8"; }
    else if k == 4 { assert rank == "E-9"; } else if k == 5 { assert rank == "O-1"; }
    else if k == 6 { assert rank == "O-2"; } else if k == 7 { assert rank == "O-3"; }
    else { assert rank == "O-4"; }
  }

  // ---- Deleting ----

  /** The records of `team` whose `rowId` is not `id`, in order. */
  function WithoutId(team: seq<Member>, id: string): (r: seq<Member>)
    ensures forall m :: m in r <==> m in team && Id(m) != id
    ensures forall m :: multiset(r)[m] == if Id(m) != id then multiset(team)[m] else 0
    ensures |r| <= |team|
  {
    if team == [] then []
    else
      assert team == [team[0]] + team[1..];
      var rest := WithoutId(team[1..], id);
      if Id(team[0]) != id then [team[0]] + rest else rest
  }

  /** Filtering keeps the order: it filters each part of a concatenation separately. */
  lemma {:induction false} WithoutIdAppend(a: seq<Member>, b: seq<Member>, id: string)
    ensures WithoutId(a + b, id) == WithoutId(a, id) + WithoutId(b, id)
  {
    if a != [] {
      assert (a + b)[1..] == a[1..] + b;
      WithoutIdAppend(a[1..], b, id);
    } else {
      assert a + b == b;
    }
  }

  /** A single record is kept exactly when its `rowId` differs. */
  lemma WithoutIdSingle(m: Member, id: string)
    ensures WithoutId([m], id) == if Id(m) != id then [m] else []
  {}

  /** Some record names `target` as its supervisor. */
  predicate HasSupervisees(members: seq<Member>, target: Member) {
    exists m :: m in members && Prop(m, "supervisor") == Id(target)
  }

  datatype DeleteOutcome =
    | SuperviseesRemain          // refused: re-assign the supervisees first
    | NoTeamStored               // the team has no stored array: nothing is written
    | Written(team: seq<Member>) // the team array to store

  /**
   * `deleteMember` once confirmed: refused while any member lists the target
   * as supervisor; otherwise the target's team array without the target.
   */
  function DeleteMember(members: seq<Member>, stored: Option<seq<Member>>, target: Member): (r: DeleteOutcome)
    requires HasRowId(target)
    ensures r.SuperviseesRemain? <==> HasSupervisees(members, target)
    ensures r.NoTeamStored? <==> !HasSupervisees(members, target) && stored.None?
    ensures r.Written? ==> forall m :: m in r.team <==> m in stored.value && Id(m) != Id(target)
    ensures r.Written? ==> forall m ::
      multiset(r.team)[m] == if Id(m) != Id(target) then multiset(stored.value)[m] else 0
  {
    if HasSupervisees(members, target) then SuperviseesRemain
    else if stored.None? then NoTeamStored
    else Written(WithoutId(stored.value, Id(target)))
  }

  // ---- The member form ----

  /** A form or record property, "" when absent. */
  function Field(form: map<string, string>, key: string): string {
    if key in form then form[key] else ""
  }

  predicate IsFlightLead(dutyTitle: string) {
    dutyTitle == "Flight Chief" || dutyTitle == "Flight Commander"
  }

  /**
   * `handleFormSubmit` before saving: a new member gets the fresh `rowId`;
   * flight leads go to the flight-leads team with no status; anyone else
   * without a team goes to the inbound team; a flight commander has no
   * supervisor.
   */
  function NormalizeForm(form: map<string, string>, isEditing: bool, freshId: string): (r: map<string, string>)
    ensures Field(r, "rowId") == if isEditing then Field(form, "rowId") else freshId
    ensures Field(r, "dutyTitle") == Field(form, "dutyTitle")
    ensures IsFlightLead(Field(form, "dutyTitle")) ==>
      Field(r, "teamSelect") == "flight-leads-container" && Field(r, "status") == ""
    ensures !IsFlightLead(Field(form, "dutyTitle")) ==>
      Field(r, "teamSelect") == (if Field(form, "teamSelect") == "" then "inbound-container" else Field(form, "teamSelect"))
      && Field(r, "status") == Field(form, "status")
    ensures Field(r, "supervisor") == if Field(form, "dutyTitle") == "Flight Commander" then "" else Field(form, "supervisor")
    ensures forall k :: k in form ==> k in r
    ensures forall k :: k in r && k !in {"rowId", "teamSelect", "status", "supervisor"} ==> k in form && r[k] == form[k]
  {
    var withId := if isEditing then form else form["rowId" := freshId];
    var duty := Field(withId, "dutyTitle");
    var placed :=
      if IsFlightLead(duty) then withId["teamSelect" := "flight-leads-container"]["status" := ""]
      else if Field(withId, "teamSelect") == "" then withId["teamSelect" := "inbound-container"]
      else withId;
    if duty == "Flight Commander" then placed["supervisor" := ""] else placed
  }

  /** After normalisation every member has a team. */
  lemma NormalizedFormHasTeam(form: map<string, string>, isEditing: bool, freshId: string)
    ensures Field(NormalizeForm(form, isEditing, freshId), "teamSelect") != ""
  {}

  // ---- Team names ----

  /** `s.replace(pattern, "")`: `s` without the first occurrence of `pattern`. */
  function RemoveFirst(s: string, pattern: string): (r: string)
    ensures |r| <= |s|
    decreases |s|
  {
    if |s| < |pattern| then s
    else if s[..|pattern|] == pattern then s[|pattern|..]
    else [s[0]] + RemoveFirst(s[1..], pattern)
  }

  /** The store key of a team: its container id without `-container`. */
  function TeamName(containerId: string): string {
    RemoveFirst(containerId, "-container")
  }

  predicate OccursAt(s: string, pattern: string, i: int) {
    0 <= i && i + |pattern| <= |s| && s[i..i + |pattern|] == pattern
  }

  /**
   * A container id made of a team name and `-container`, with no earlier
   * occurrence of `-container`, maps back to the team name.
   */
  lemma {:induction false} TeamNameOfContainer(name: string)
    requires forall i :: 0 <= i < |name| ==> !OccursAt(name + "-container", "-container", i)
    ensures TeamName(name + "-container") == name
  {
    var s := name + "-container";
    if name != [] {
      assert !OccursAt(s, "-container", 0);
      assert s[1..] == name[1..] + "-container";
      forall i | 0 <= i < |name[1..]|
        ensures !OccursAt(name[1..] + "-container", "-container", i)
      {
        assert !OccursAt(s, "-container", i + 1);
        assert (name[1..] + "-container")[i..i + 10] == s[i + 1..i + 11];
      }
      TeamNameOfContainer(name[1..]);
      assert name == [name[0]] + name[1..];
    } else {
      assert s[..10] == "-container";
    }
  }

  // ---- Saving ----

  /** The form key under which a custom field's value arrives. */
  function CustomKey(fieldId: string): string {
    "custom_" + fieldId
  }

  lemma CustomKeyInjective(a: string, b: string)
    requires CustomKey(a) == CustomKey(b)
    ensures a == b
  {
    assert a == CustomKey(a)[7..];
    assert b == CustomKey(b)[7..];
  }

  function CustomKeys(fieldIds: seq<string>): set<string> {
    set id | id in fieldIds :: CustomKey(id)
  }

  /** The custom field values the form carries, keyed by field id. */
  function ExtractedCustomData(form: map<string, string>, fieldIds: seq<string>): map<string, string> {
    map id | id in fieldIds && CustomKey(id) in form :: form[CustomKey(id)]
  }

  /**
   * The loop over the custom fields at the start of `saveMember`: each
   * `custom_<id>` entry of the form is moved into the member's custom data
   * under `<id>`.
   */
  method SplitCustomData(form: map<string, string>, fieldIds: seq<string>)
    returns (rest: map<string, string>, customData: map<string, string>)
    ensures rest == form - CustomKeys(fieldIds)
    ensures customData == ExtractedCustomData(form, fieldIds)
  {
    rest, customData := form, map[];
    for i := 0 to |fieldIds|
      invariant rest == form - CustomKeys(fieldIds[..i])
      invariant customData == ExtractedCustomData(form, fieldIds[..i])
    {
      var id := fieldIds[i];
      var key := CustomKey(id);
      assert fieldIds[..i + 1] == fieldIds[..i] + [id];
      assert CustomKeys(fieldIds[..i + 1]) == CustomKeys(fieldIds[..i]) + {key};
      if key in rest {
        customData := customData[id := rest[key]];
        rest := rest - {key};
      } else if key in form {
        var other :| other in fieldIds[..i] && CustomKey(other) == key;
        CustomKeyInjective(other, id);
      }
    }
  }

  /** `filter(m => m && m.rowId)`: the records that have a `rowId`. */
  function WithRowIds(team: seq<Member>): (r: seq<Member>)
    ensures forall m :: m in r <==> m in team && HasRowId(m)
    ensures (forall m :: m in team ==> HasRowId(m)) ==> r == team
    ensures |r| <= |team|
  {
    if team == [] then []
    else
      var rest := WithRowIds(team[1..]);
      if HasRowId(team[0]) then [team[0]] + rest else rest
  }

  /** Filtering keeps the order: it filters each part of a concatenation separately. */
  lemma {:induction false} WithRowIdsAppend(a: seq<Member>, b: seq<Member>)
    ensures WithRowIds(a + b) == WithRowIds(a) + WithRowIds(b)
  {
    if a != [] {
      assert (a + b)[0] == a[0] && (a + b)[1..] == a[1..] + b;
      WithRowIdsAppend(a[1..], b);
    } else {
      assert a + b == b;
    }
  }

  /** Each record with a `rowId` is kept as many times as it occurs, any other not at all. */
  lemma {:induction false} WithRowIdsCount(team: seq<Member>, m: Member)
    ensures multiset(WithRowIds(team))[m] == if HasRowId(m) then multiset(team)[m] else 0
  {
    if team != [] {
      assert team == [team[0]] + team[1..];
      WithRowIdsCount(team[1..], m);
    }
  }

  /** A single record is kept exactly when it has a `rowId`. */
  lemma WithRowIdsSingle(m: Member)
    ensures WithRowIds([m]) == if HasRowId(m) then [m] else []
  {}

  /** `{ ...existing, ...form, customData: { ...existing.customData, ...customData } }`. */
  function MergeInto(existing: Member, form: map<string, string>, customData: map<string, string>): (r: Member)
    ensures forall k :: Prop(r, k) == if k in form then form[k] else Prop(existing, k)
    ensures r.fields.Keys == existing.fields.Keys + form.Keys
    ensures forall id :: id in r.customData <==> id in existing.customData || id in customData
    ensures forall id :: id in customData ==> r.customData[id] == customData[id]
    ensures forall id :: id in existing.customData && id !in customData ==> r.customData[id] == existing.customData[id]
  {
    Member(existing.fields + form, existing.customData + customData)
  }

  /**
   * The team array `saveMember` stores: an edit of a record already in the
   * team merges into it in place; anything else is appended with the
   * extracted custom data; records without a `rowId` are dropped.
   */
  function SavedTeam(stored: seq<Member>, form: map<string, string>, fieldIds: seq<string>, isEditing: bool): seq<Member> {
    var rest := form - CustomKeys(fieldIds);
    var customData := ExtractedCustomData(form, fieldIds);
    var team := WithRowIds(stored);
    var i := FirstIndexWithId(team, Field(rest, "rowId"));
    var updated :=
      if isEditing && i >= 0 then team[i := MergeInto(team[i], rest, customData)]
      else team + [Member(rest, customData)];
    WithRowIds(updated)
  }

  /** The array operations of `saveMember` between the fetch and the write. */
  method SaveIntoTeam(stored: seq<Member>, form: map<string, string>, fieldIds: seq<string>, isEditing: bool)
    returns (team: seq<Member>)
    ensures team == SavedTeam(stored, form, fieldIds, isEditing)
  {
    var rest, customData := SplitCustomData(form, fieldIds);
    team := WithRowIds(stored);
    var memberIndex := if isEditing then FirstIndexWithId(team, Field(rest, "rowId")) else -1;
    if memberIndex != -1 {
      team := team[memberIndex := MergeInto(team[memberIndex], rest, customData)];
    } else {
      team := team + [Member(rest, customData)];
    }
    team := WithRowIds(team);
  }

  function Ids(team: seq<Member>): set<string> {
    set m | m in team :: Id(m)
  }

  lemma CustomKeysMissRowId(fieldIds: seq<string>)
    ensures "rowId" !in CustomKeys(fieldIds)
  {}

  /**
   * Editing a record the team holds rewrites that record in place: the team
   * keeps its length, the edited position holds the merge, every other
   * position is unchanged.
   */
  lemma EditMergesInPlace(stored: seq<Member>, form: map<string, string>, fieldIds: seq<string>)
    requires Field(form, "rowId") in Ids(WithRowIds(stored))
    ensures var team := WithRowIds(stored);
      var saved := SavedTeam(stored, form, fieldIds, true);
      var i := FirstIndexWithId(team, Field(form, "rowId"));
      && 0 <= i < |team| && |saved| == |team|
      && saved[i] == MergeInto(team[i], form - CustomKeys(fieldIds), ExtractedCustomData(form, fieldIds))
      && forall j :: 0 <= j < |team| && j != i ==> saved[j] == team[j]
  {
    var team := WithRowIds(stored);
    var rest := form - CustomKeys(fieldIds);
    CustomKeysMissRowId(fieldIds);
    assert Field(rest, "rowId") == Field(form, "rowId");
    var i := FirstIndexWithId(team, Field(rest, "rowId"));
    assert i >= 0;
    var updated := team[i := MergeInto(team[i], rest, ExtractedCustomData(form, fieldIds))];
    assert Prop(updated[i], "rowId") == Field(rest, "rowId");
    assert forall m :: m in updated ==> HasRowId(m);
  }

  /**
   * Adding a member with a `rowId` appends it to the team, with its custom
   * fields moved into its custom data, after the records that have a `rowId`.
   */
  lemma AddAppends(stored: seq<Member>, form: map<string, string>, fieldIds: seq<string>)
    requires Field(form, "rowId") != ""
    ensures SavedTeam(stored, form, fieldIds, false)
         == WithRowIds(stored) + [Member(form - CustomKeys(fieldIds), ExtractedCustomData(form, fieldIds))]
  {
    var team := WithRowIds(stored);
    var added := Member(form - CustomKeys(fieldIds), ExtractedCustomData(form, fieldIds));
    CustomKeysMissRowId(fieldIds);
    assert HasRowId(added);
    assert forall m :: m in team + [added] ==> HasRowId(m);
  }

  /**
   * Saving an edit whose `rowId` is not in the stored team appends the record
   * as an add does; a record without a `rowId` is filtered out again.
   */
  lemma EditAbsentAppends(stored: seq<Member>, form: map<string, string>, fieldIds: seq<string>)
    requires Field(form, "rowId") !in Ids(WithRowIds(stored))
    ensures var added := Member(form - CustomKeys(fieldIds), ExtractedCustomData(form, fieldIds));
      SavedTeam(stored, form, fieldIds, true)
        == WithRowIds(stored) + (if Field(form, "rowId") != "" then [added] else [])
  {
    var team := WithRowIds(stored);
    var rest := form - CustomKeys(fieldIds);
    var added := Member(rest, ExtractedCustomData(form, fieldIds));
    CustomKeysMissRowId(fieldIds);
    assert Field(rest, "rowId") == Field(form, "rowId");
    assert FirstIndexWithId(team, Field(rest, "rowId")) == -1;
    WithRowIdsAppend(team, [added]);
    WithRowIdsSingle(added);
    assert WithRowIds(team) == team;
  }

  // ---- Moving between teams ----

  /** The record after `member.teamSelect = containerId`. */
  function MovedMember(member: Member, containerId: string): (r: Member)
    ensures Prop(r, "teamSelect") == containerId && Id(r) == Id(member)
    ensures forall k :: k != "teamSelect" ==> Prop(r, k) == Prop(member, k)
    ensures r.customData == member.customData
  {
    Member(member.fields["teamSelect" := containerId], member.customData)
  }

  /**
   * The store update `handleDrop` writes when a member moves to another
   * container: the old team without the member, and the new team with the
   * moved record appended.
   */
  function DropUpdates(member: Member, containerId: string, oldTeam: seq<Member>, newTeam: seq<Member>)
    : (updates: map<string, seq<Member>>)
    ensures updates.Keys == {TeamName(Prop(member, "teamSelect")), TeamName(containerId)}
    ensures updates[TeamName(containerId)] == newTeam + [MovedMember(member, containerId)]
    ensures TeamName(Prop(member, "teamSelect")) != TeamName(containerId) ==>
      forall m :: m in updates[TeamName(Prop(member, "teamSelect"))] <==> m in oldTeam && Id(m) != Id(member)
    ensures TeamName(Prop(member, "teamSelect")) != TeamName(containerId) ==> forall m ::
      multiset(updates[TeamName(Prop(member, "teamSelect"))])[m]
        == if Id(m) != Id(member) then multiset(oldTeam)[m] else 0
  {
    map[TeamName(Prop(member, "teamSelect")) := WithoutId(oldTeam, Id(member))]
       [TeamName(containerId) := newTeam + [MovedMember(member, containerId)]]
  }
}
