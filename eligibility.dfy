/**
 * The promotion-eligibility rule engine: a member's rank, time-in-service
 * date (TIS), date of rank (DOR) and below-the-zone (BTZ) status, judged
 * against a given day, yield a verdict that says how the member's card is
 * classified, whether it offers the promote button, and, once a BTZ board has
 * concluded, the BTZ promotion date a "selected" decision would record.
 */
module Eligibility {
  import opened Maybe
  import opened Calendar
  import opened Records

  /** The `className` of a verdict. */
  datatype Classification =
    | ManualReview     // "manual-review"
    | InfoNeeded       // "info-needed"
    | BtzSelect        // "btz-select"
    | Eligible         // "eligible"
    | NotEligible      // "not-eligible"
    | BtzNotSelected   // "btz-not-selected"
    | BtzTwoQuarters   // "btz-two-q"
    | BtzNextQuarter   // "btz-next-q"
    | BtzWindow        // "btz-window"
    | BoardConcluded   // "board-concluded"

  /** What the engine returns; the display texts `status` and `note` are not modelled. */
  datatype Verdict = Verdict(classification: Classification, showPromoteButton: bool, btzPromoDate: Option<Date>)

  function Plain(c: Classification): Verdict {
    Verdict(c, false, None)
  }

  /** An `eligible` verdict, which always carries `showPromoteButton: true`. */
  function Promotable(): Verdict {
    Verdict(Eligible, true, None)
  }

  predicate StartsWith(s: string, prefix: string) {
    |prefix| <= |s| && s[..|prefix|] == prefix
  }

  // ---- The E-3 below-the-zone calendar ----

  /** The standard E-3 to E-4 date: the earlier of TIS plus 36 months and DOR plus 28 months. */
  function StandardPromoDate(tis: Date, dor: Date): (r: Date)
    ensures r == AddMonths(tis, 36) || r == AddMonths(dor, 28)
    ensures OnOrAfter(AddMonths(tis, 36), r) && OnOrAfter(AddMonths(dor, 28), r)
  {
    Earlier(AddMonths(tis, 36), AddMonths(dor, 28))
  }

  /** The below-the-zone promotion date: six months before the standard date. */
  function BtzPromoDate(tis: Date, dor: Date): (r: Date)
    ensures ValidDate(tis) && ValidDate(dor) ==> ValidDate(r) && Before(r, StandardPromoDate(tis, dor))
  {
    AddMonths(StandardPromoDate(tis, dor), -6)
  }

  /** The BTZ board meets in the quarter before the quarter of the BTZ promotion date. */
  function BoardQuarter(tis: Date, dor: Date): (q: Quarter)
    ensures ValidQuarter(q)
    ensures Ordinal(q) == Ordinal(QuarterOf(BtzPromoDate(tis, dor))) - 1
  {
    PreviousQuarter(QuarterOf(BtzPromoDate(tis, dor)))
  }

  /** The E-3 branch of the engine, for a member whose BTZ status is not "selected". */
  function E3Verdict(tis: Date, dor: Date, btzStatus: string, today: Date): (v: Verdict)
    ensures v.showPromoteButton <==> v.classification == Eligible
    ensures v.btzPromoDate.Some? <==> v.classification == BoardConcluded
  {
    var standard := StandardPromoDate(tis, dor);
    var current := QuarterOf(today);
    var board := BoardQuarter(tis, dor);
    var next := NextQuarter(current);
    var twoOut := NextQuarter(next);
    if btzStatus == "not-selected" then
      if OnOrAfter(today, standard) then Promotable() else Plain(BtzNotSelected)
    else if board.year == twoOut.year && board.quarter == twoOut.quarter then Plain(BtzTwoQuarters)
    else if board.year == next.year && board.quarter == next.quarter then Plain(BtzNextQuarter)
    else if Ordinal(current) == Ordinal(board) then Plain(BtzWindow)
    else if Ordinal(current) > Ordinal(board) then Verdict(BoardConcluded, false, Some(BtzPromoDate(tis, dor)))
    else Plain(NotEligible)
  }

  /**
   * `calculatePromotionEligibility` on the record's rank, parsed TIS and DOR
   * dates (None when the record has none), BTZ status, and the day of the
   * evaluation.
   */
  function EligibilityOf(rank: string, tis: Option<Date>, dor: Option<Date>, btzStatus: string, today: Date): (v: Verdict)
    ensures v.showPromoteButton <==> v.classification == Eligible
    ensures v.btzPromoDate.Some? <==> v.classification == BoardConcluded
  {
    if tis.None? || dor.None? then
      if StartsWith(rank, "O-") then Plain(ManualReview) else Plain(InfoNeeded)
    else if btzStatus == "selected" then Plain(BtzSelect)
    else
      var monthsTis := MonthsDifference(tis, Some(today));
      var monthsTig := MonthsDifference(dor, Some(today));
      match rank
      case "E-1" => if monthsTis >= 6 && monthsTig >= 6 then Promotable() else Plain(NotEligible)
      case "E-2" => if monthsTig >= 10 then Promotable() else Plain(NotEligible)
      case "E-3" => E3Verdict(tis.value, dor.value, btzStatus, today)
      case "E-4" => if monthsTis >= 36 && monthsTig >= 6 then Promotable() else Plain(NotEligible)
      case "E-5" => if monthsTis >= 60 && monthsTig >= 23 then Promotable() else Plain(NotEligible)
      case "E-6" => if monthsTis >= 96 && monthsTig >= 24 then Promotable() else Plain(NotEligible)
      case "E-7" => if monthsTis >= 132 && monthsTig >= 20 then Promotable() else Plain(NotEligible)
      case "E-8" => if monthsTis >= 168 && monthsTig >= 21 then Promotable() else Plain(NotEligible)
      case "E-9" => Plain(ManualReview)
      case _ => Plain(ManualReview)
  }

  /** A date property of the record: absent when empty, otherwise its `YYYY-MM-DD` reading. */
  function ReadDate(s: string): (r: Option<Date>)
    ensures r.None? <==> s == "" || ParseIsoDate(s).None?
  {
    if s == "" then None else ParseIsoDate(s)
  }

  /** Every non-empty date property of the record is a well-formed date. */
  predicate DatesReadable(m: Member) {
    (Prop(m, "tisDate") != "" ==> ParseIsoDate(Prop(m, "tisDate")).Some?)
    && (Prop(m, "dorDate") != "" ==> ParseIsoDate(Prop(m, "dorDate")).Some?)
  }

  /** The verdict for a stored member record on day `today`. */
  function CalculatePromotionEligibility(m: Member, today: Date): (v: Verdict)
    requires DatesReadable(m)
    ensures (Prop(m, "tisDate") == "" || Prop(m, "dorDate") == "")
        ==> v == Plain(if StartsWith(Prop(m, "rank"), "O-") then ManualReview else InfoNeeded)
    ensures v.showPromoteButton <==> v.classification == Eligible
  {
    EligibilityOf(Prop(m, "rank"), ReadDate(Prop(m, "tisDate")), ReadDate(Prop(m, "dorDate")), Prop(m, "btzStatus"), today)
  }

  // ---- The rank table the threshold branches implement ----

  /** Minimum whole months of service (when checked) and in grade for one rank. */
  datatype Requirement = Requirement(minTis: Option<int>, minTig: int)

  /** The TIS/TIG minimums of the ranks whose eligibility is a pure time threshold. */
  function RequirementFor(rank: string): Option<Requirement> {
    match rank
    case "E-1" => Some(Requirement(Some(6), 6))
    case "E-2" => Some(Requirement(None, 10))
    case "E-4" => Some(Requirement(Some(36), 6))
    case "E-5" => Some(Requirement(Some(60), 23))
    case "E-6" => Some(Requirement(Some(96), 24))
    case "E-7" => Some(Requirement(Some(132), 20))
    case "E-8" => Some(Requirement(Some(168), 21))
    case _ => None
  }

  predicate Meets(req: Requirement, monthsTis: int, monthsTig: int) {
    (req.minTis.None? || monthsTis >= req.minTis.value) && monthsTig >= req.minTig
  }

  // ---- Properties of the engine ----

  /**
   * Without both dates the verdict is manual review for an officer rank and
   * "info needed" otherwise, whatever the other inputs are.
   */
  lemma MissingDates(rank: string, tis: Option<Date>, dor: Option<Date>, btzStatus: string, today: Date)
    requires tis.None? || dor.None?
    ensures EligibilityOf(rank, tis, dor, btzStatus, today)
         == Plain(if StartsWith(rank, "O-") then ManualReview else InfoNeeded)
  {}

  /** With both dates, a recorded BTZ selection wins over every rank rule. */
  lemma BtzSelectedAnyRank(rank: string, tis: Date, dor: Date, today: Date)
    ensures EligibilityOf(rank, Some(tis), Some(dor), "selected", today) == Plain(BtzSelect)
  {}

  /**
   * For E-1, E-2 and E-4 to E-8 the verdict is `eligible` with the promote
   * button exactly when the rank's minimums are met, and `not-eligible`
   * otherwise.
   */
  lemma ThresholdRanks(rank: string, tis: Date, dor: Date, btzStatus: string, today: Date)
    requires RequirementFor(rank).Some? && btzStatus != "selected"
    ensures var v := EligibilityOf(rank, Some(tis), Some(dor), btzStatus, today);
      var met := Meets(RequirementFor(rank).value,
                       MonthsDifference(Some(tis), Some(today)), MonthsDifference(Some(dor), Some(today)));
      v == if met then Promotable() else Plain(NotEligible)
  {}

  /** E-9, officer ranks and every rank outside the enlisted switch are reviewed by hand. */
  lemma ManualReviewRanks(rank: string, tis: Date, dor: Date, btzStatus: string, today: Date)
    requires RequirementFor(rank).None? && rank != "E-3" && btzStatus != "selected"
    ensures EligibilityOf(rank, Some(tis), Some(dor), btzStatus, today) == Plain(ManualReview)
  {}

  /**
   * An E-3 not selected for BTZ is promotable from the standard date on, and
   * `btz-not-selected` before it.
   */
  lemma E3NotSelected(tis: Date, dor: Date, today: Date)
    ensures EligibilityOf("E-3", Some(tis), Some(dor), "not-selected", today)
         == if OnOrAfter(today, StandardPromoDate(tis, dor)) then Promotable() else Plain(BtzNotSelected)
  {}

  /** The BTZ classification by how many quarters the board lies after the current one. */
  function BoardTiming(offset: int): Classification {
    if offset == 2 then BtzTwoQuarters
    else if offset == 1 then BtzNextQuarter
    else if offset == 0 then BtzWindow
    else if offset < 0 then BoardConcluded
    else NotEligible
  }

  /**
   * An E-3 without a BTZ decision is classified by the distance from today's
   * quarter to the board quarter: two ahead, one ahead, this quarter, past
   * (carrying the BTZ date), or further ahead; exactly one of these applies.
   */
  lemma E3BoardTiming(tis: Date, dor: Date, btzStatus: string, today: Date)
    requires btzStatus != "selected" && btzStatus != "not-selected"
    ensures var v := EligibilityOf("E-3", Some(tis), Some(dor), btzStatus, today);
      var offset := Ordinal(BoardQuarter(tis, dor)) - Ordinal(QuarterOf(today));
      && v.classification == BoardTiming(offset)
      && !v.showPromoteButton
      && v.btzPromoDate == (if offset < 0 then Some(BtzPromoDate(tis, dor)) else None)
  {
    var current := QuarterOf(today);
    var board := BoardQuarter(tis, dor);
    var next := NextQuarter(current);
    var twoOut := NextQuarter(next);
    OrdinalInjective(board, twoOut);
    OrdinalInjective(board, next);
  }

  /**
   * The E-3 standard date is never reached before the whole-month count shows
   * 36 months of service or 28 months in grade.
   */
  lemma E3StandardDateServed(tis: Date, dor: Date, today: Date)
    requires ValidDate(tis) && ValidDate(dor) && ValidDate(today)
    requires OnOrAfter(today, StandardPromoDate(tis, dor))
    ensures MonthsDifference(Some(tis), Some(today)) >= 36 || MonthsDifference(Some(dor), Some(today)) >= 28
  {
    if StandardPromoDate(tis, dor) == AddMonths(tis, 36) {
      ReachedAddMonths(tis, 36, today);
    } else {
      ReachedAddMonths(dor, 28, today);
    }
  }

  /**
   * Whole-month counting ignores the day, so whether an E-1 is eligible the
   * day before six calendar months are up depends on the day of the month:
   * TIS/DOR 19 March 2024 is eligible on 18 September, while TIS/DOR
   * 1 March 2024 is still not eligible on 31 August.
   */
  lemma WholeMonthCounting()
    ensures Before(Date(2024, 8, 18), AddMonths(Date(2024, 2, 19), 6))
    ensures EligibilityOf("E-1", Some(Date(2024, 2, 19)), Some(Date(2024, 2, 19)), "", Date(2024, 8, 18)) == Promotable()
    ensures Before(Date(2024, 7, 31), AddMonths(Date(2024, 2, 1), 6))
    ensures EligibilityOf("E-1", Some(Date(2024, 2, 1)), Some(Date(2024, 2, 1)), "", Date(2024, 7, 31)) == Plain(NotEligible)
  {}
}
