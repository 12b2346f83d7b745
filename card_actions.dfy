/**
 * The actions a member card offers that change the record in place: the
 * promote button, the BTZ "Selected" / "Not Selected" buttons, and dropping
 * the card on another team's container. Each is specified by a function on
 * record values, and carried out by a method of `MemberRecord`, the mutable
 * record object the roster code holds.
 */
module CardActions {
  import opened Maybe
  import opened Calendar
  import opened Records
  import opened Ranks
  import opened Eligibility
  import opened Roster

  /** Why the promote button leaves the record alone. */
  datatype PromoteError =
    | InvalidDateFormat   // "Invalid date format."
    | NoNextRank          // "Max rank reached or invalid current rank ..."

  /**
   * The promote button with `newDor` as the answer to the date prompt (a
   * cancelled prompt answers ""): the record one rank up with that date of
   * rank, or the reason for refusing. The date is checked first.
   */
  function PromotionOf(m: Member, newDor: string): Result<Member, PromoteError> {
    if !MatchesIsoDateShape(newDor) then Err(InvalidDateFormat)
    else match NextRank(Prop(m, "rank"))
      case None => Err(NoNextRank)
      case Some(next) => Ok(Member(m.fields["rank" := next]["dorDate" := newDor], m.customData))
  }

  /**
   * A promotion goes through exactly for a well-shaped date and a rank from
   * E-1 to E-8; it raises the rank one step, records the new date of rank,
   * and leaves every other property, the row id and the custom data alone.
   */
  lemma PromotionSteps(m: Member, newDor: string)
    ensures PromotionOf(m, newDor).Ok? <==> MatchesIsoDateShape(newDor) && Prop(m, "rank") in PromotionSequence[..8]
    ensures !MatchesIsoDateShape(newDor) ==> PromotionOf(m, newDor) == Err(InvalidDateFormat)
    ensures PromotionOf(m, newDor).Ok? ==>
      var p := PromotionOf(m, newDor).value;
      && RankOrder(Prop(p, "rank")) == RankOrder(Prop(m, "rank")) + 1
      && Prop(p, "rank") in PromotionSequence
      && Prop(p, "dorDate") == newDor
      && Id(p) == Id(m)
      && (forall k :: k != "rank" && k != "dorDate" ==> Prop(p, k) == Prop(m, k))
      && p.customData == m.customData
  {
    NextRankSteps(Prop(m, "rank"));
  }

  /** E-9, officers and ranks off the ladder are never promoted, whatever the date. */
  lemma TopAndOfficerRanksStay(m: Member, newDor: string)
    requires MatchesIsoDateShape(newDor)
    requires Prop(m, "rank") == "E-9" || StartsWith(Prop(m, "rank"), "O-")
    ensures PromotionOf(m, newDor) == Err(NoNextRank)
  {
    OffLadder(Prop(m, "rank"));
  }

  /** The top rank and the officer ranks have no successor on the ladder. */
  lemma OffLadder(rank: string)
    requires rank == "E-9" || StartsWith(rank, "O-")
    ensures NextRank(rank).None?
  {
    forall j | 0 <= j < 8
      ensures PromotionSequence[j] != rank
    {
      NotBelowTop(rank, j);
    }
    NextRankSteps(rank);
    assert rank !in PromotionSequence[..8];
  }

  lemma NotBelowTop(rank: string, j: int)
    requires rank == "E-9" || StartsWith(rank, "O-")
    requires 0 <= j < 8
    ensures PromotionSequence[j] != rank
  {
    LadderOrder(j);
    if rank == "E-9" {
      assert RankOrder(rank) == 9;
    } else {
      assert rank[..2] == "O-";
    }
  }

  /**
   * A member promoted with today's date as the new date of rank has no time
   * in grade yet, so the card no longer offers the promote button, except
   * for a new E-3 whose record already says "not-selected" (the standard
   * E-3 date may have passed on time in service alone).
   */
  lemma PromotedTodayHidesButton(m: Member, today: Date)
    requires ValidDate(today) && 0 <= today.year <= 9999
    requires Prop(m, "tisDate") != "" ==> ParseIsoDate(Prop(m, "tisDate")).Some?
    requires PromotionOf(m, FormatIsoDate(today)).Ok?
    requires Prop(m, "btzStatus") != "not-selected" || Prop(m, "rank") != "E-2"
    ensures var p := PromotionOf(m, FormatIsoDate(today)).value;
      DatesReadable(p) && !CalculatePromotionEligibility(p, today).showPromoteButton
  {
    var p := PromotionOf(m, FormatIsoDate(today)).value;
    ParseFormatRoundTrip(today);
    PromotionSteps(m, FormatIsoDate(today));
    assert ReadDate(Prop(p, "dorDate")) == Some(today);
    NextRankSteps(Prop(m, "rank"));
    var i := IndexOf(PromotionSequence, Prop(m, "rank"));
    assert Prop(p, "rank") == PromotionSequence[i + 1];
    NoTimeInGradeNoButton(i + 1, ReadDate(Prop(p, "tisDate")), Prop(p, "btzStatus"), today);
  }

  /**
   * With a date of rank of today, no rank above E-1 meets its time-in-grade
   * minimum, and an E-3 reaches the button only on the "not-selected" path.
   */
  lemma NoTimeInGradeNoButton(i: int, tis: Option<Date>, btzStatus: string, today: Date)
    requires 1 <= i < |PromotionSequence|
    requires i == 2 ==> btzStatus != "not-selected"
    ensures !EligibilityOf(PromotionSequence[i], tis, Some(today), btzStatus, today).showPromoteButton
  {
    assert MonthsDifference(Some(today), Some(today)) == 0;
    var rank := PromotionSequence[i];
    if tis.Some? && btzStatus != "selected" && rank == "E-3" {
      E3BoardTiming(tis.value, today, btzStatus, today);
    }
  }

  /**
   * A BTZ decision button: "selected" records the selection, keeps the old
   * date of rank as `originalDor`, sets the date of rank to the BTZ date the
   * button carries and the rank to E-4; any other action records
   * "not-selected" and nothing else.
   */
  function AfterBtzDecision(m: Member, action: string, newDor: string): Member {
    if action == "selected" then
      Member(m.fields["btzStatus" := "selected"]["originalDor" := Prop(m, "dorDate")]
                     ["dorDate" := newDor]["rank" := "E-4"], m.customData)
    else
      Member(m.fields["btzStatus" := "not-selected"], m.customData)
  }

  /**
   * The BTZ buttons change exactly the properties they assign: "Selected"
   * sets `btzStatus`, `originalDor`, `dorDate` and `rank`, "Not Selected"
   * sets `btzStatus` alone; every other property and the custom data stay.
   */
  lemma BtzDecisionFrame(m: Member, action: string, newDor: string)
    ensures var s := AfterBtzDecision(m, action, newDor);
      && s.customData == m.customData
      && Id(s) == Id(m)
      && (action == "selected" ==>
            && Prop(s, "btzStatus") == "selected"
            && Prop(s, "originalDor") == Prop(m, "dorDate")
            && Prop(s, "dorDate") == newDor
            && Prop(s, "rank") == "E-4"
            && forall k :: k !in {"btzStatus", "originalDor", "dorDate", "rank"} ==> Prop(s, k) == Prop(m, k))
      && (action != "selected" ==>
            && Prop(s, "btzStatus") == "not-selected"
            && forall k :: k != "btzStatus" ==> Prop(s, k) == Prop(m, k))
  {}

  /** The date the "Selected" button carries: the verdict's BTZ date in `YYYY-MM-DD` form. */
  function SelectedButtonDor(v: Verdict): (s: string)
    requires v.btzPromoDate.Some? && ValidDate(v.btzPromoDate.value)
    requires 0 <= v.btzPromoDate.value.year <= 9999
    ensures ParseIsoDate(s) == Some(v.btzPromoDate.value)
  {
    ParseFormatRoundTrip(v.btzPromoDate.value);
    FormatIsoDate(v.btzPromoDate.value)
  }

  /**
   * A selection is final: whatever day the engine later runs on, a selected
   * member with both dates readable is `btz-select` and never offered the
   * promote button again.
   */
  lemma BtzSelectionIsFinal(m: Member, newDor: string, today: Date)
    requires Prop(m, "tisDate") != "" && newDor != ""
    requires DatesReadable(AfterBtzDecision(m, "selected", newDor))
    ensures var s := AfterBtzDecision(m, "selected", newDor);
      && Prop(s, "rank") == "E-4"
      && Prop(s, "originalDor") == Prop(m, "dorDate")
      && Prop(s, "dorDate") == newDor
      && CalculatePromotionEligibility(s, today) == Plain(BtzSelect)
  {
    var s := AfterBtzDecision(m, "selected", newDor);
    assert Prop(s, "tisDate") == Prop(m, "tisDate");
    assert Prop(s, "btzStatus") == "selected";
  }

  /**
   * Choosing "Selected" on a concluded board makes the member an E-4 whose
   * date of rank reads back as the BTZ promotion date of the old record.
   */
  lemma SelectionRecordsBtzDate(m: Member, tis: Date, dor: Date, today: Date)
    requires ReadDate(Prop(m, "tisDate")) == Some(tis) && ReadDate(Prop(m, "dorDate")) == Some(dor)
    requires Prop(m, "rank") == "E-3" && Prop(m, "btzStatus") != "selected"
    requires CalculatePromotionEligibility(m, today).classification == BoardConcluded
    requires 0 <= BtzPromoDate(tis, dor).year <= 9999
    ensures var v := CalculatePromotionEligibility(m, today);
      && v.btzPromoDate == Some(BtzPromoDate(tis, dor))
      && ReadDate(Prop(AfterBtzDecision(m, "selected", FormatIsoDate(BtzPromoDate(tis, dor))), "dorDate"))
         == Some(BtzPromoDate(tis, dor))
  {
    assert ValidDate(tis) && ValidDate(dor);
    ParseFormatRoundTrip(BtzPromoDate(tis, dor));
  }

  /**
   * "Not Selected" on an E-3 record leads to the standard path: the card
   * offers the promote button from the standard date on and reads
   * `btz-not-selected` before it.
   */
  lemma NotSelectedFollowsStandardDate(m: Member, tis: Date, dor: Date, today: Date)
    requires ReadDate(Prop(m, "tisDate")) == Some(tis) && ReadDate(Prop(m, "dorDate")) == Some(dor)
    requires Prop(m, "rank") == "E-3"
    ensures var n := AfterBtzDecision(m, "not-selected", "");
      && DatesReadable(n)
      && CalculatePromotionEligibility(n, today)
         == if OnOrAfter(today, StandardPromoDate(tis, dor)) then Promotable() else Plain(BtzNotSelected)
  {
    var n := AfterBtzDecision(m, "not-selected", "");
    assert Prop(n, "tisDate") == Prop(m, "tisDate") && Prop(n, "dorDate") == Prop(m, "dorDate");
    assert Prop(n, "rank") == "E-3" && Prop(n, "btzStatus") == "not-selected";
    E3NotSelected(tis, dor, today);
  }

  /**
   * A member record object as the roster code holds it: the card actions
   * assign its properties in place before the record is written back.
   */
  class MemberRecord {
    var fields: map<string, string>
    var customData: map<string, string>

    /** The record's current value. */
    function Snapshot(): Member
      reads this
    {
      Member(fields, customData)
    }

    constructor (m: Member)
      ensures Snapshot() == m
    {
      fields := m.fields;
      customData := m.customData;
    }

    /**
     * The promote button's handler up to the save: on a well-shaped date and
     * a rank with a successor, assign the next rank and the new date of
     * rank; otherwise report why and change nothing.
     */
    method Promote(newDor: string) returns (error: Option<PromoteError>)
      modifies this
      ensures error.None? ==> PromotionOf(old(Snapshot()), newDor) == Ok(Snapshot())
      ensures error.Some? ==> PromotionOf(old(Snapshot()), newDor) == Err(error.value) && Snapshot() == old(Snapshot())
    {
      if !MatchesIsoDateShape(newDor) {
        return Some(InvalidDateFormat);
      }
      var rank := if "rank" in fields then fields["rank"] else "";
      var i := IndexOf(PromotionSequence, rank);
      if i > -1 && i < |PromotionSequence| - 1 {
        fields := fields["rank" := PromotionSequence[i + 1]];
        fields := fields["dorDate" := newDor];
        error := None;
      } else {
        error := Some(NoNextRank);
      }
    }

    /** The BTZ buttons' handler up to the save. */
    method RecordBtzDecision(action: string, newDor: string)
      modifies this
      ensures Snapshot() == AfterBtzDecision(old(Snapshot()), action, newDor)
    {
      if action == "selected" {
        var previousDor := if "dorDate" in fields then fields["dorDate"] else "";
        fields := fields["btzStatus" := "selected"];
        fields := fields["originalDor" := previousDor];
        fields := fields["dorDate" := newDor];
        fields := fields["rank" := "E-4"];
      } else {
        fields := fields["btzStatus" := "not-selected"];
      }
    }

    /**
     * `handleDrop` for this record and the container `containerId`: nothing
     * when the record is already in that container, and nothing either when
     * the record has no `teamSelect` at all (the handler's `replace` on it
     * throws before anything is assigned or written); otherwise reassign
     * `teamSelect` and return the two team lists to write, the old team
     * without the record and the new team with the moved record pushed on.
     */
    method DropOn(containerId: string, oldTeam: seq<Member>, newTeam: seq<Member>)
      returns (updates: Option<map<string, seq<Member>>>)
      modifies this
      ensures "teamSelect" !in old(fields) || containerId == Prop(old(Snapshot()), "teamSelect") ==>
        updates.None? && Snapshot() == old(Snapshot())
      ensures "teamSelect" in old(fields) && containerId != Prop(old(Snapshot()), "teamSelect") ==>
        && Snapshot() == MovedMember(old(Snapshot()), containerId)
        && updates == Some(DropUpdates(old(Snapshot()), containerId, oldTeam, newTeam))
    {
      if "teamSelect" !in fields {
        return None;
      }
      var current := fields["teamSelect"];
      if containerId == current {
        return None;
      }
      var id := if "rowId" in fields then fields["rowId"] else "";
      var oldTeamName := TeamName(current);
      var newTeamName := TeamName(containerId);
      fields := fields["teamSelect" := containerId];
      var finalOldTeam := WithoutId(oldTeam, id);
      var newTeamArray := newTeam;
      newTeamArray := newTeamArray + [Snapshot()];
      updates := Some(map[oldTeamName := finalOldTeam][newTeamName := newTeamArray]);
    }
  }
}
