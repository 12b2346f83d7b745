/** The rank tables: the enlisted promotion ladder, rank precedence and supervisor ranks. */
module Ranks {
  import opened Maybe

  /** `PROMOTION_SEQUENCE`: the enlisted ladder a manual promotion walks. */
  const PromotionSequence: seq<string> := ["E-1", "E-2", "E-3", "E-4", "E-5", "E-6", "E-7", "E-8", "E-9"]

  /** `SUPERVISOR_RANKS`: the ranks offered as supervisors. */
  const SupervisorRanks: seq<string> := ["E-5", "E-6", "E-7", "E-8", "E-9", "O-1", "O-2", "O-3", "O-4"]

  /** `RANK_ORDER[rank] || 0`: precedence of a rank, 0 for an unknown one. */
  function RankOrder(rank: string): int {
    match rank
    case "E-1" => 1
    case "E-2" => 2
    case "E-3" => 3
    case "E-4" => 4
    case "E-5" => 5
    case "E-6" => 6
    case "E-7" => 7
    case "E-8" => 8
    case "E-9" => 9
    case "O-1" => 10
    case "O-2" => 11
    case "O-3" => 12
    case "O-4" => 13
    case _ => 0
  }

  /** `Array.prototype.indexOf`: the first position of `x` in `s`, or -1. */
  function IndexOf(s: seq<string>, x: string): (i: int)
    ensures -1 <= i < |s|
    ensures i >= 0 ==> s[i] == x && x !in s[..i]
    ensures i == -1 <==> x !in s
  {
    if s == [] then -1
    else if s[0] == x then 0
    else
      var j := IndexOf(s[1..], x);
      if j < 0 then -1 else j + 1
  }

  /**
   * The rank a manual promotion moves to: the next entry of the ladder when
   * `rank` is on it and is not its last entry.
   */
  function NextRank(rank: string): Option<string> {
    var i := IndexOf(PromotionSequence, rank);
    if i > -1 && i < |PromotionSequence| - 1 then Some(PromotionSequence[i + 1]) else None
  }

  /** Each rank of the ladder sits one step above the one before it. */
  lemma LadderOrder(i: int)
    requires 0 <= i < |PromotionSequence|
    ensures RankOrder(PromotionSequence[i]) == i + 1
    ensures PromotionSequence[i][..2] == "E-"
  {
    var r := PromotionSequence[i];
    if i == 0 { assert r == "E-1"; } else if i == 1 { assert r == "E-2"; }
    else if i == 2 { assert r == "E-3"; } else if i == 3 { assert r == "E-4"; }
    else if i == 4 { assert r == "E-5"; } else if i == 5 { assert r == "E-6"; }
    else if i == 6 { assert r == "E-7"; } else if i == 7 { assert r == "E-8"; }
    else { assert r == "E-9"; }
  }

  /**
   * Exactly E-1 to E-8 can be promoted, each to the rank one step higher in
   * precedence; E-9, officer ranks and unknown ranks cannot.
   */
  lemma NextRankSteps(rank: string)
    ensures NextRank(rank).Some? <==> rank in PromotionSequence[..8]
    ensures NextRank(rank).Some? ==>
      NextRank(rank).value in PromotionSequence
      && RankOrder(NextRank(rank).value) == RankOrder(rank) + 1
  {
    var i := IndexOf(PromotionSequence, rank);
    if rank in PromotionSequence[..8] {
      var j :| 0 <= j < 8 && PromotionSequence[..8][j] == rank;
      assert PromotionSequence[j] == rank;
    }
    if 0 <= i < 8 {
      assert PromotionSequence[..8][i] == rank;
      LadderOrder(i);
      LadderOrder(i + 1);
    }
  }
}
