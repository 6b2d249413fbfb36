/**
 * Head-to-head pairing inside one week: a performance's opponent and its natural
 * win against that opponent.
 */
module Pairing {
  import opened Outcomes

  /** The fields of one matchup entry that the analytics read. */
  datatype MatchupRecord = MatchupRecord(matchupId: int, rosterId: int, points: real)

  /** q plays against p: the same matchup, another roster. */
  predicate IsOpponent(p: MatchupRecord, q: MatchupRecord)
  {
    q.matchupId == p.matchupId && q.rosterId != p.rosterId
  }

  /**
   * The opponent's entry: the first entry of the week's data that plays against p,
   * or None where the source's [0] on an empty list fails.
   */
  function Opponent(p: MatchupRecord, week: seq<MatchupRecord>): (r: Option<MatchupRecord>)
    ensures r.Some? ==> exists i :: 0 <= i < |week| && week[i] == r.value && IsOpponent(p, week[i])
                                    && forall j :: 0 <= j < i ==> !IsOpponent(p, week[j])
    ensures r.None? <==> forall j :: 0 <= j < |week| ==> !IsOpponent(p, week[j])
  {
    if week == [] then None
    else if IsOpponent(p, week[0]) then Some(week[0])
    else
      var r := Opponent(p, week[1..]);
      assert forall j :: 1 <= j < |week| ==> week[j] == week[1..][j - 1];
      r
  }

  /** 1 for more points than the opponent, 0 for fewer, 0.5 for a tie. */
  function NaturalWin(points: real, opponentPoints: real): (r: real)
    ensures r == 1.0 <==> points > opponentPoints
    ensures r == 0.0 <==> points < opponentPoints
    ensures r == 0.5 <==> points == opponentPoints
  {
    if points > opponentPoints then 1.0
    else if points < opponentPoints then 0.0
    else 0.5
  }

  /** The natural win of p in its week, None when p has no opponent there. */
  function NaturalWinOf(p: MatchupRecord, week: seq<MatchupRecord>): (r: Option<real>)
    ensures r.Some? <==> Opponent(p, week).Some?
    ensures r.Some? ==> r.value == NaturalWin(p.points, Opponent(p, week).value.points)
  {
    match Opponent(p, week)
    case None => None
    case Some(o) => Some(NaturalWin(p.points, o.points))
  }

  /** The two sides of a game split exactly one win between them. */
  lemma NaturalWinsComplement(a: real, b: real)
    ensures NaturalWin(a, b) + NaturalWin(b, a) == 1.0
    ensures 0.0 <= NaturalWin(a, b) <= 1.0
  {
  }

  /** Two performances that are each other's opponent have natural wins summing to 1. */
  lemma PairedNaturalWins(p: MatchupRecord, q: MatchupRecord, week: seq<MatchupRecord>)
    requires Opponent(p, week) == Some(q) && Opponent(q, week) == Some(p)
    ensures NaturalWinOf(p, week).Some? && NaturalWinOf(q, week).Some?
    ensures NaturalWinOf(p, week).value + NaturalWinOf(q, week).value == 1.0
  {
    NaturalWinsComplement(p.points, q.points);
  }

  /** A week with one entry has no opponent for it. */
  lemma LoneEntryHasNoOpponent(p: MatchupRecord)
    ensures Opponent(p, [p]) == None
  {
    assert !IsOpponent(p, [p][0]);
  }

  /** When exactly one entry of the week plays against p, that entry is the opponent. */
  lemma OnlyOpponent(p: MatchupRecord, week: seq<MatchupRecord>, j: nat)
    requires j < |week| && IsOpponent(p, week[j])
    requires forall k :: 0 <= k < |week| && IsOpponent(p, week[k]) ==> k == j
    ensures Opponent(p, week) == Some(week[j])
  {
  }

  /** No roster appears twice in the week. */
  predicate DistinctRosters(week: seq<MatchupRecord>)
  {
    forall i, j :: 0 <= i < |week| && 0 <= j < |week| && i != j ==> week[i].rosterId != week[j].rosterId
  }

  /** Every entry shares its matchup id with some other entry. */
  predicate EveryMatchupPaired(week: seq<MatchupRecord>)
  {
    forall i :: 0 <= i < |week| ==>
      exists j :: 0 <= j < |week| && j != i && week[j].matchupId == week[i].matchupId
  }

  /** Once two entries share a matchup id, no third entry has it. */
  predicate NoMatchupOfThree(week: seq<MatchupRecord>)
  {
    forall i, j, k ::
      (0 <= i < |week| && 0 <= j < |week| && 0 <= k < |week| && i != j && k != i && k != j
       && week[j].matchupId == week[i].matchupId) ==> week[k].matchupId != week[i].matchupId
  }

  /** A well-formed week: every matchup is a game between exactly two distinct rosters. */
  predicate WellFormedWeek(week: seq<MatchupRecord>)
  {
    DistinctRosters(week) && EveryMatchupPaired(week) && NoMatchupOfThree(week)
  }

  /** In a well-formed week, the other entry of i's matchup is i's only opponent. */
  lemma PartnerIsOnlyOpponent(week: seq<MatchupRecord>, i: nat, j: nat)
    requires WellFormedWeek(week) && i < |week| && j < |week| && i != j
    requires week[j].matchupId == week[i].matchupId
    ensures Opponent(week[i], week) == Some(week[j])
  {
    assert IsOpponent(week[i], week[j]);
    forall k | 0 <= k < |week| && IsOpponent(week[i], week[k]) ensures k == j {
      assert k != i;
    }
    OnlyOpponent(week[i], week, j);
  }

  /**
   * In a well-formed week the pairing is symmetric: every entry has an opponent, and
   * that opponent's opponent is the entry itself.
   */
  lemma OpponentSymmetric(week: seq<MatchupRecord>, i: nat)
    requires WellFormedWeek(week) && i < |week|
    ensures Opponent(week[i], week).Some?
    ensures Opponent(Opponent(week[i], week).value, week) == Some(week[i])
  {
    var j :| 0 <= j < |week| && j != i && week[j].matchupId == week[i].matchupId;
    PartnerIsOnlyOpponent(week, i, j);
    PartnerIsOnlyOpponent(week, j, i);
  }
}
