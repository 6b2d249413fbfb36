/**
 * The roster metadata join: each roster is matched with the first league member who
 * owns it, giving its team name and season win count.
 */
module Rosters {
  import opened Outcomes

  /** A roster: its id, its owner's user id (None for an ownerless roster) and its wins. */
  datatype RosterRecord = RosterRecord(rosterId: int, ownerId: Option<string>, wins: int)

  /** A league member; teamName is None when the member's metadata has no team name. */
  datatype MemberRecord = MemberRecord(userId: string, displayName: string, teamName: Option<string>)

  /** One row of the roster map. */
  datatype RosterMeta = RosterMeta(rosterId: int, teamName: string, wins: int)

  /** The member owns the roster. */
  predicate Owns(member: MemberRecord, roster: RosterRecord)
  {
    roster.ownerId == Some(member.userId)
  }

  /** The first member that owns the roster, if any. */
  function FindOwner(roster: RosterRecord, members: seq<MemberRecord>): (r: Option<MemberRecord>)
    ensures r.None? <==> forall k :: 0 <= k < |members| ==> !Owns(members[k], roster)
    ensures r.Some? ==> exists k :: 0 <= k < |members| && members[k] == r.value && Owns(members[k], roster)
                                    && forall j :: 0 <= j < k ==> !Owns(members[j], roster)
  {
    if members == [] then None
    else if Owns(members[0], roster) then Some(members[0])
    else
      var r := FindOwner(roster, members[1..]);
      assert forall k :: 1 <= k < |members| ==> members[k] == members[1..][k - 1];
      r
  }

  /** The member's team name from its metadata, or its display name when there is none. */
  function TeamName(member: MemberRecord): (name: string)
    ensures member.teamName.Some? ==> name == member.teamName.value
    ensures member.teamName.None? ==> name == member.displayName
  {
    match member.teamName
    case Some(t) => t
    case None => member.displayName
  }

  /** The rows one roster contributes: one for its first owner, none without an owner. */
  function MetaFor(roster: RosterRecord, members: seq<MemberRecord>): seq<RosterMeta>
  {
    match FindOwner(roster, members)
    case None => []
    case Some(m) => [RosterMeta(roster.rosterId, TeamName(m), roster.wins)]
  }

  /** The roster map: the rows of every roster, in roster order. */
  function RosterMapSpec(rosters: seq<RosterRecord>, members: seq<MemberRecord>): seq<RosterMeta>
  {
    if rosters == [] then []
    else RosterMapSpec(rosters[..|rosters| - 1], members) + MetaFor(rosters[|rosters| - 1], members)
  }

  /** When members[j] is the first owner of the roster, the roster's row carries its team name. */
  lemma FirstOwnerRow(roster: RosterRecord, members: seq<MemberRecord>, j: nat)
    requires j < |members| && Owns(members[j], roster)
    requires forall k :: 0 <= k < j ==> !Owns(members[k], roster)
    ensures MetaFor(roster, members) == [RosterMeta(roster.rosterId, TeamName(members[j]), roster.wins)]
  {
    var k :| 0 <= k < |members| && members[k] == FindOwner(roster, members).value && Owns(members[k], roster)
             && forall i :: 0 <= i < k ==> !Owns(members[i], roster);
    assert k == j;
  }

  /** Extending the rosters by roster i appends its rows. */
  lemma RosterMapStep(rosters: seq<RosterRecord>, members: seq<MemberRecord>, i: nat)
    requires i < |rosters|
    ensures RosterMapSpec(rosters[..i + 1], members) == RosterMapSpec(rosters[..i], members) + MetaFor(rosters[i], members)
  {
    assert rosters[..i + 1][..i] == rosters[..i];
  }

  /** roster_map: the nested loop over rosters and members, leaving the inner loop at the first owner. */
  method RosterMap(rosters: seq<RosterRecord>, members: seq<MemberRecord>) returns (result: seq<RosterMeta>)
    ensures result == RosterMapSpec(rosters, members)
  {
    result := [];
    var i := 0;
    while i < |rosters|
      invariant 0 <= i <= |rosters|
      invariant result == RosterMapSpec(rosters[..i], members)
    {
      var roster := rosters[i];
      var before := result;
      var j := 0;
      while j < |members|
        invariant 0 <= j <= |members|
        invariant result == before
        invariant forall k :: 0 <= k < j ==> !Owns(members[k], roster)
      {
        if Some(members[j].userId) == roster.ownerId {
          FirstOwnerRow(roster, members, j);
          result := result + [RosterMeta(roster.rosterId, TeamName(members[j]), roster.wins)];
          break;
        }
        j := j + 1;
      }
      assert result == before + MetaFor(roster, members);
      RosterMapStep(rosters, members, i);
      i := i + 1;
    }
    assert rosters[..i] == rosters;
  }

  /** The roster map of two runs of rosters is the map of the first followed by that of the second. */
  lemma {:induction false} RosterMapAppend(a: seq<RosterRecord>, b: seq<RosterRecord>, members: seq<MemberRecord>)
    ensures RosterMapSpec(a + b, members) == RosterMapSpec(a, members) + RosterMapSpec(b, members)
    decreases |b|
  {
    if b == [] {
      assert a + b == a;
    } else {
      var front, last := b[..|b| - 1], b[|b| - 1];
      assert (a + b)[..|a + b| - 1] == a + front;
      assert RosterMapSpec(a + b, members) == RosterMapSpec(a + front, members) + MetaFor(last, members);
      RosterMapAppend(a, front, members);
    }
  }

  /**
   * Order: the rows of the rosters before position i come first, then the row of
   * roster i (if it has an owner), then the rows of the rosters after it.
   */
  lemma RosterMapSplit(rosters: seq<RosterRecord>, members: seq<MemberRecord>, i: nat)
    requires i < |rosters|
    ensures RosterMapSpec(rosters, members)
         == RosterMapSpec(rosters[..i], members) + MetaFor(rosters[i], members) + RosterMapSpec(rosters[i + 1..], members)
  {
    assert rosters == rosters[..i] + [rosters[i]] + rosters[i + 1..];
    RosterMapAppend(rosters[..i] + [rosters[i]], rosters[i + 1..], members);
    RosterMapAppend(rosters[..i], [rosters[i]], members);
    assert RosterMapSpec([rosters[i]], members) == MetaFor(rosters[i], members) by {
      assert [rosters[i]][..0] == [];
    }
  }

  /** Every row of the roster map is a roster's id and wins with its first owner's team name. */
  lemma {:induction false} RosterMapRows(rosters: seq<RosterRecord>, members: seq<MemberRecord>, k: nat)
    requires k < |RosterMapSpec(rosters, members)|
    ensures exists i :: (0 <= i < |rosters| && FindOwner(rosters[i], members).Some?
      && RosterMapSpec(rosters, members)[k]
         == RosterMeta(rosters[i].rosterId, TeamName(FindOwner(rosters[i], members).value), rosters[i].wins))
    decreases |rosters|
  {
    var n := |rosters|;
    var front := rosters[..n - 1];
    if k < |RosterMapSpec(front, members)| {
      RosterMapRows(front, members, k);
      var i :| 0 <= i < |front| && FindOwner(front[i], members).Some?
        && RosterMapSpec(front, members)[k]
           == RosterMeta(front[i].rosterId, TeamName(FindOwner(front[i], members).value), front[i].wins);
      assert front[i] == rosters[i];
    } else {
      assert FindOwner(rosters[n - 1], members).Some?;
    }
  }

  /** Every roster with an owner among the members has its row in the roster map. */
  lemma RosterMapComplete(rosters: seq<RosterRecord>, members: seq<MemberRecord>, i: nat)
    requires i < |rosters| && FindOwner(rosters[i], members).Some?
    ensures RosterMeta(rosters[i].rosterId, TeamName(FindOwner(rosters[i], members).value), rosters[i].wins)
            in RosterMapSpec(rosters, members)
  {
    RosterMapSplit(rosters, members, i);
  }

  /** A roster without an owner among the members contributes no row. */
  lemma OwnerlessRosterOmitted(rosters: seq<RosterRecord>, members: seq<MemberRecord>, i: nat)
    requires i < |rosters| && forall k :: 0 <= k < |members| ==> !Owns(members[k], rosters[i])
    ensures RosterMapSpec(rosters, members)
         == RosterMapSpec(rosters[..i], members) + RosterMapSpec(rosters[i + 1..], members)
  {
    RosterMapSplit(rosters, members, i);
  }

  /** The roster map is empty exactly when no roster has an owner among the members. */
  lemma {:induction false} RosterMapEmpty(rosters: seq<RosterRecord>, members: seq<MemberRecord>)
    ensures RosterMapSpec(rosters, members) == [] <==>
      forall i :: 0 <= i < |rosters| ==> FindOwner(rosters[i], members).None?
    decreases |rosters|
  {
    if rosters != [] {
      var init, last := rosters[..|rosters| - 1], rosters[|rosters| - 1];
      RosterMapEmpty(init, members);
      assert RosterMapSpec(rosters, members) == RosterMapSpec(init, members) + MetaFor(last, members);
      assert MetaFor(last, members) == [] <==> FindOwner(last, members).None?;
      assert forall i :: 0 <= i < |init| ==> init[i] == rosters[i];
    }
  }
}
