# FlightTracker promotion engine and roster updates, in Dafny

FlightTracker keeps a roster of Air Force members split into teams. Each
member record holds a rank, a time-in-service date (TIS), a date of rank
(DOR), an optional below-the-zone (BTZ) board decision, a supervisor and a
team. This project models the logic at the centre of the roster page:

- **Eligibility** (`eligibility.dfy`). The engine turns a record and "today"
  into a verdict: how the card is classified, whether it offers the promote
  button, and the BTZ promotion date after a BTZ board has met. It covers
  the per-rank time-in-service and time-in-grade minimums for E-1, E-2 and
  E-4 to E-8, and the E-3 calendar. That calendar works out a standard date
  (TIS + 36 months or DOR + 28 months, whichever comes first), a BTZ date
  six months earlier, and the board quarter just before the quarter of the
  BTZ date.
- **Calendar** (`calendar.dfy`). Dates, `Date.setMonth` month arithmetic,
  whole-month differences, quarters and their ordinal `year * 4 + quarter`,
  and reading and writing `YYYY-MM-DD` strings.
- **Ranks** (`ranks.dfy`). The rank precedence table, the supervisor ranks,
  and the promotion ladder E-1 to E-9.
- **Card actions** (`card_actions.dfy`). The promote button and the BTZ
  "Selected" / "Not Selected" buttons change a record object in place.
  Dropping a card on another team moves the record. Each action is a pure
  function on record values plus a method of the mutable `MemberRecord`
  class that does the in-place work.
- **Roster lists** (`roster.dfy`). Lookup by `rowId`, the supervisor choices,
  the delete guard, form normalisation on submit, and the team-array updates
  of saving a member (upsert by `rowId` with a `customData` merge) and of
  moving a member between teams.
- **Supervision chart** (`chart.dfy`). `buildChartTree` as a two-pass
  method, proved against a specification of the forest it returns. A lemma
  shows that members on a supervision cycle are reachable from no root, so
  the chart drawn from the roots never shows them.

A record is a `Member` holding a map of string properties plus its
`customData` map (`records.dfy`). Most tests the code applies to a property
are truthiness tests or comparisons with a non-empty string, so the model
reads a missing property as `""` there. Where the code tells a missing
property apart from a present one, the model tests map membership instead:
the custom-field extraction (`!== undefined`, script.js:92) and the drop
handler, whose `replace` on a missing `teamSelect` throws. An object spread
`{ ...a, ...b }` is a map union.

Facts about the code that the model keeps as they are:

- No "+1 day" is applied to the standard or the BTZ date.
- An E-3 whose board meets this quarter is classified `btz-window`, and the
  verdict carries no BTZ date. Only `board-concluded` carries one.
- E-4 to E-8 are plain threshold ranks with classification `eligible`.
  There is no `promotionStatus` / `promotionDate` board path.
- There is no automatic promotion and no batch sweep. Every rank change is
  the user pressing a button.
- Months are counted as whole calendar months, ignoring the day, so an E-1
  can be eligible before six full months have passed: TIS/DOR 19 March 2024
  is eligible on 18 September, while TIS/DOR 1 March 2024 is still not
  eligible on 31 August (`Eligibility.WholeMonthCounting`).

## Model

| member | source | states |
|---|---|---|
| Calendar.Earlier | script.js:815 | the result is one of the two dates and neither date is before it |
| Calendar.AddMonths | script.js:811-817 | adding months to a valid date gives a valid date whose month index is shifted by exactly k; the day is kept, or the date rolls into the next month when that day does not exist |
| Calendar.MonthsDifference | script.js:884-887 | a missing date gives 0 months |
| Calendar.MonthsDifferenceIsIndexDistance | script.js:884-887 | the difference is the distance between the two month indexes (years times 12 plus month) |
| Calendar.MonthsDifferenceAntisymmetric | script.js:884-887 | swapping the two dates negates the difference |
| Calendar.MonthsDifferenceIgnoresDay | script.js:884-887 | the difference does not depend on the day of either date |
| Calendar.AddMonthsDifference | script.js:811-817 | the month count from a date to the same date plus k months is k, or k + 1 when the day rolled over |
| Calendar.ReachedAddMonths | script.js:811-829 | once today is on or after the date plus k months, at least k whole months have passed |
| Calendar.ParseIsoDate | script.js:798-799 | a string that reads as a date has the `YYYY-MM-DD` shape and names a real day with a four-digit year; any other shape reads as nothing |
| Calendar.MatchesIsoDateShape | script.js:683 | the date-format test: four, two and two ASCII digits joined by dashes |
| Calendar.FormatIsoDate | script.js:843 | writing a date with a four-digit year gives a string of the `YYYY-MM-DD` shape |
| Calendar.ParseFormatRoundTrip | script.js:843 | reading back a written date gives the same date |
| Calendar.QuarterOf | script.js:868-874 | months 0-2, 3-5, 6-8 and 9-11 fall in quarters 1 to 4 of the same year |
| Calendar.PreviousQuarter | script.js:876-878 | the result is exactly one quarter earlier by ordinal, and valid |
| Calendar.NextQuarter | script.js:880-882 | the result is exactly one quarter later by ordinal, and valid |
| Calendar.PreviousNextInverse | script.js:876-882 | the previous and next quarter undo each other |
| Calendar.Ordinal | script.js:800 | the quarter value `year * 4 + quarter` used to compare quarters |
| Calendar.OrdinalInjective | script.js:800 | two valid quarters are the same exactly when their ordinals are equal |
| Ranks.RankOrder | script.js:6 | the precedence table: E-1 to E-9 are 1 to 9, O-1 to O-4 are 10 to 13, anything else 0 |
| Ranks.NextRank | script.js:687-689 | the next entry of the promotion sequence for a rank on it that is not the last |
| Ranks.IndexOf | script.js:687 | the first position of the rank in the list, or -1 exactly when it is absent |
| Ranks.LadderOrder | script.js:6-10 | the i-th rank of the promotion sequence has precedence i + 1 and is enlisted |
| Ranks.NextRankSteps | script.js:687-689 | a promotion exists exactly for E-1 to E-8; it leads to a rank on the ladder with precedence one higher |
| Eligibility.StandardPromoDate | script.js:811-815 | the standard date is TIS + 36 months or DOR + 28 months, and neither of these comes before it |
| Eligibility.BtzPromoDate | script.js:816-817 | the BTZ date is a valid date strictly before the standard date |
| Eligibility.BoardQuarter | script.js:818-820 | the board quarter is valid and lies one quarter before the quarter of the BTZ date |
| Eligibility.E3Verdict | script.js:810-844 | the promote button appears exactly on an `eligible` verdict, and a BTZ date comes exactly with `board-concluded` |
| Eligibility.EligibilityOf | script.js:789-866 | for every rank: the promote button appears exactly on `eligible`, and a BTZ date comes exactly with `board-concluded` |
| Eligibility.ReadDate | script.js:791 | a date property is absent exactly when it is empty or does not read as a date |
| Eligibility.CalculatePromotionEligibility | script.js:789-799 | a record missing either date is reviewed by hand if it has an officer rank and needs information otherwise; the button appears exactly on `eligible` |
| Eligibility.MissingDates | script.js:791-794 | without both dates the verdict depends only on whether the rank is an officer rank |
| Eligibility.BtzSelectedAnyRank | script.js:795 | a recorded BTZ selection gives `btz-select`, whatever the rank and day |
| Eligibility.ThresholdRanks | script.js:802-860 | for E-1, E-2 and E-4 to E-8 the verdict is `eligible` exactly when the rank's months of service and grade are met |
| Eligibility.ManualReviewRanks | script.js:861-864 | E-9, officer and unknown ranks with both dates are reviewed by hand |
| Eligibility.E3NotSelected | script.js:828-831 | an E-3 not selected for BTZ is eligible from the standard date on, and `btz-not-selected` before it |
| Eligibility.E3BoardTiming | script.js:833-844 | an undecided E-3 is classified by how many quarters lie between today and the board quarter; the BTZ date appears only after the board |
| Eligibility.E3StandardDateServed | script.js:811-829 | reaching the standard date means 36 whole months of service or 28 of grade have passed |
| Eligibility.WholeMonthCounting | script.js:798-804 | months ignore the day: an E-1 with TIS/DOR 19 March 2024 is eligible on 18 September, one day before six months are up, while one with TIS/DOR 1 March 2024 is not yet eligible on 31 August |
| Roster.FirstIndexWithId | script.js:102 | the first position holding the id, or -1 exactly when no record has it |
| Roster.FindMemberById | script.js:167-170 | an empty id finds nothing; otherwise the first record with that `rowId`, and nothing exactly when none has it |
| Roster.SupervisorCandidates | script.js:384 | the offered supervisors are exactly the records with a `rowId` and a supervisor rank that are not the member being edited |
| Roster.SupervisorCandidatesCount | script.js:384 | each candidate is offered as many times as the roster holds it, and no other record is offered |
| Roster.CandidatesOutrankE4 | script.js:384 | every offered supervisor ranks E-5 or above and is not the member themself |
| Roster.WithoutId | script.js:136 | the team keeps exactly the records whose `rowId` differs, each as many times as it occurs |
| Roster.WithoutIdAppend | script.js:136 | the filter keeps the order: it filters the parts of a concatenation separately |
| Roster.WithoutIdSingle | script.js:136 | a single record is kept exactly when its `rowId` differs |
| Roster.DeleteMember | script.js:124-137 | deletion is refused exactly when someone has the member as supervisor; nothing is written when the team is not stored; otherwise the stored team loses exactly the records with the member's `rowId`, and keeps every other record as often as it occurred |
| Roster.NormalizeForm | script.js:557-574 | a new member gets the fresh id; flight leads go to the flight-leads team with empty status; others keep their team or go to inbound; a Flight Commander has no supervisor; every other property is kept |
| Roster.NormalizedFormHasTeam | script.js:568-572 | after normalisation every member has a team |
| Roster.TeamName | script.js:86 | the store key of a container: its id with the first `-container` removed |
| Roster.TeamNameOfContainer | script.js:86 | the store key of the container `<name>-container` is `<name>` |
| Roster.CustomKeyInjective | script.js:90-91 | two custom fields with the same form key are the same field |
| Roster.SplitCustomData | script.js:89-96 | the loop moves exactly the custom form keys out of the form and into the custom data, keyed by field id |
| Roster.WithRowIds | script.js:100 | the kept records are exactly those with a `rowId`, and a team where all have one is unchanged |
| Roster.WithRowIdsCount | script.js:100 | each record with a `rowId` is kept as many times as it occurs, any other not at all |
| Roster.WithRowIdsAppend | script.js:100 | the filter keeps the order: it filters the parts of a concatenation separately |
| Roster.WithRowIdsSingle | script.js:100 | a single record is kept exactly when it has a `rowId` |
| Roster.MergeInto | script.js:104-106 | the merged record has exactly the stored record's properties and the form's; every property comes from the form when present and from the stored record otherwise; the custom data is the stored one overwritten by the new values |
| Roster.SavedTeam | script.js:100-116 | the team array `saveMember` stores: merge in place on an edit of a stored record, append otherwise, then keep the records with a `rowId` |
| Roster.SaveIntoTeam | script.js:100-116 | the method computes the team array `saveMember` writes |
| Roster.EditMergesInPlace | script.js:101-106 | editing a stored member merges the form into that record at its own position and leaves every other record alone |
| Roster.AddAppends | script.js:111-116 | adding a member appends it, with its custom data split off, after the records that have a `rowId` |
| Roster.EditAbsentAppends | script.js:107-110 | saving an edit whose `rowId` the stored team lacks appends the record as an add does |
| Roster.MovedMember | script.js:594 | the moved record has the new `teamSelect` and every other property unchanged |
| Roster.DropUpdates | script.js:592-608 | the update writes exactly the old and new teams; the new team gains the moved record at its end; the old team loses exactly the member's records and keeps every other record as often as it occurred |
| Chart.Parent | script.js:732-733 | a node hangs under its `supervisor` exactly when that names a node |
| Chart.NodesOf | script.js:724-728 | the map from `rowId` to record; each record sits under its own id |
| Chart.NodesOfKeys | script.js:724-728 | the map holds exactly the ids of the records that have one |
| Chart.NodesOfLast | script.js:724-728 | a later record with the same id replaces an earlier one |
| Chart.OrderOf | script.js:724-731 | the map's key order lists each node once |
| Chart.RootsAmong | script.js:734-735 | the roots are exactly the nodes without a supervisor node |
| Chart.RootsAmongCount | script.js:734-735 | each node without a supervisor node is listed as a root as many times as the key order lists it, and no other id is |
| Chart.ChildrenAmong | script.js:732-733 | a node's children are exactly the nodes whose supervisor it is |
| Chart.ChildrenAmongCount | script.js:732-733 | each node whose supervisor is `p` is listed among `p`'s children as many times as the key order lists it, and no other id is |
| Chart.ChartOf | script.js:719-739 | the forest `buildChartTree` returns: the nodes, the roots and every node's children in map order |
| Chart.IndexMembers | script.js:724-728 | the first loop builds the id map and its key order |
| Chart.HangNodes | script.js:730-737 | the second loop builds the roots and every node's children, in map order |
| Chart.BuildChartTree | script.js:719-739 | the method returns the specified forest |
| Chart.ChartPlacement | script.js:730-737 | each node is a root or a child of its own supervisor, and of no other node |
| Chart.ChartPlacesOnce | script.js:722-737 | every node appears exactly once in the forest: once among the roots if it has no supervisor node, otherwise once among its supervisor's children, and in no other list |
| Chart.AncestorAdd | script.js:732-733 | climbing a + b supervision steps is climbing a and then b |
| Chart.CycleRepeats | script.js:732-733 | climbing around a supervision cycle any number of times comes back to the start |
| Chart.ChartHungBySupervisor | script.js:730-737 | the built forest hangs every node under its own supervisor and roots only nodes without one |
| Chart.ReachableLeadsToRoot | script.js:730-737 | a node reachable from a root in n steps has that root n supervision steps above it |
| Chart.CycleUnreachable | script.js:765-766 | a member on a supervision cycle is in no subtree of any root, so the chart never shows them |
| CardActions.PromotionOf | script.js:683-690 | the promote button's effect on a record value, or why it refuses |
| CardActions.PromotionSteps | script.js:681-695 | promotion happens exactly for a well-shaped date and a rank from E-1 to E-8; it raises precedence by one, sets the new date of rank, and keeps the id, every other property and the custom data |
| CardActions.TopAndOfficerRanksStay | script.js:686-694 | E-9 and officer ranks are never promoted |
| CardActions.OffLadder | script.js:687-688 | E-9 and officer ranks have no next rank |
| CardActions.PromotedTodayHidesButton | script.js:681-691 | after a promotion dated today the card offers no promote button, except a new E-3 already marked not selected |
| CardActions.AfterBtzDecision | script.js:697-705 | the BTZ buttons' effect on a record value |
| CardActions.BtzDecisionFrame | script.js:697-705 | "Selected" sets exactly `btzStatus`, `originalDor`, `dorDate` and `rank`; "Not Selected" sets only `btzStatus`; every other property and the custom data stay |
| CardActions.SelectedButtonDor | script.js:227-228 | the date on the "Selected" button reads back as the verdict's BTZ date |
| CardActions.BtzSelectionIsFinal | script.js:697-702 | after "Selected" the record is E-4 with the BTZ date as its date of rank, the old one as `originalDor`, and it is `btz-select` on every later day |
| CardActions.SelectionRecordsBtzDate | script.js:697-702 | on a concluded board, "Selected" stores a date of rank that reads back as the BTZ promotion date |
| CardActions.NotSelectedFollowsStandardDate | script.js:703-704 | after "Not Selected" an E-3 follows the standard date |
| CardActions.MemberRecord.Promote | script.js:681-695 | the promote handler assigns exactly the promoted rank and date, or reports the error and changes nothing |
| CardActions.MemberRecord.RecordBtzDecision | script.js:697-705 | the BTZ handler's in-place assignments produce the decided record, which `BtzDecisionFrame` describes property by property |
| CardActions.MemberRecord.DropOn | script.js:591-608 | a drop on the member's own container does nothing, nor does a drop of a record without `teamSelect` (the handler throws before any change); otherwise the record's team is reassigned and the two team lists to write are returned |

## Left out

- Reading and writing the remote record store, the caches, the page, the
  drag images, and the `prompt`, `alert` and `confirm` dialogs. Their results
  are parameters: the stored team, the prompt's answer, the decision.
- The clock. "Today" is a parameter, and the fresh id `card-<timestamp>` is
  the `freshId` parameter.
- Time zones. A `YYYY-MM-DD` string is read as a UTC midnight and "today"
  is a local midnight; the model treats both as calendar dates.
- Calendar.ParseIsoDate: dates outside 0000-9999 and strings that `new Date`
  reads loosely are not modelled; such strings read as no date.
- Eligibility.CalculatePromotionEligibility: requires that each non-empty date
  property reads as a date. The `Invalid Date` / `NaN` path is left out.
- The display texts of a verdict (`status`, `note`, `toLocaleDateString`) and
  the card markup.
- The sorts by last name and by rank precedence (`localeCompare`, the chart's
  child ordering). The model keeps the list order.
- `null` holes in stored arrays. A stored team is a sequence of records.
- Aliasing. `handleDrop` pushes the very object held in the member cache;
  the model pushes a value copy of it.
- The custom field manager and the other editing screens, which only read
  and write configuration.
- A missing `teamSelect` in `saveMember` and `deleteMember` (script.js:86,
  130): there the `replace` throws before anything is written. The model
  takes the team name and the stored team as given, so this path is outside
  `Roster.SaveIntoTeam` and `Roster.DeleteMember`.
- CardActions.MemberRecord.DropOn: the `findMemberById` lookup that comes
  before it is modelled separately by `Roster.FindMemberById`.
