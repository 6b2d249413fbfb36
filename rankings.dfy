/**
 * The power ranking: per-roster season totals of expected and natural wins, joined
 * with the roster map, with luckstat = natural - expected, sorted by expected wins
 * in descending order.
 */
module Rankings {
  import opened Outcomes
  import opened Sums
  import opened Pairing
  import opened WeekResults
  import opened Season
  import opened Rosters

  /** Season totals of the roster in one column of the stacked tables. */
  datatype SeasonTotal = SeasonTotal(rosterId: int, expectedWins: real, naturalWins: real)

  /** One row of the power ranking table (roster_id is dropped). */
  datatype PowerRow = PowerRow(teamName: string, wins: int, expectedWins: real, naturalWins: real, luckstat: real)

  /** A week's expected win in column j. */
  function ExpectedAt(j: nat): seq<Row> -> real
  {
    (table: seq<Row>) => if j < |table| then table[j].expectedWin else 0.0
  }

  /** A week's natural win in column j. */
  function NaturalAt(j: nat): seq<Row> -> real
  {
    (table: seq<Row>) => if j < |table| then table[j].naturalWin else 0.0
  }

  /** A week's luck (natural minus expected win) in column j. */
  function LuckAt(j: nat): seq<Row> -> real
  {
    (table: seq<Row>) => NaturalAt(j)(table) - ExpectedAt(j)(table)
  }

  /**
   * The column sums over the stacked weeks, with the roster ids of week 1: columns are
   * matched by position across weeks.
   */
  function SeasonTotals(hist: seq<seq<Row>>): (totals: seq<SeasonTotal>)
    requires |hist| > 0 && Rectangular(hist)
    ensures |totals| == |hist[0]|
  {
    seq(|hist[0]|, j requires 0 <= j < |hist[0]| =>
      SeasonTotal(hist[0][j].rosterId, SumBy(hist, ExpectedAt(j)), SumBy(hist, NaturalAt(j))))
  }

  /** A season's luck in a column is the sum of that column's weekly luck. */
  lemma SeasonLuckIsWeeklyLuck(hist: seq<seq<Row>>, j: nat)
    ensures SumBy(hist, NaturalAt(j)) - SumBy(hist, ExpectedAt(j)) == SumBy(hist, LuckAt(j))
  {
    var f, g := NaturalAt(j), ExpectedAt(j);
    SumByDifference(hist, f, g);
    SumByPointwise(hist, x => f(x) - g(x), hist, LuckAt(j));
  }

  /** The joined row of a roster-map row and a season total. */
  function Joined(meta: RosterMeta, total: SeasonTotal): PowerRow
  {
    PowerRow(meta.teamName, meta.wins, total.expectedWins, total.naturalWins, total.naturalWins - total.expectedWins)
  }

  /** The joined rows of one roster-map row: one per total with its roster id, in order. */
  function JoinOne(meta: RosterMeta, totals: seq<SeasonTotal>): seq<PowerRow>
  {
    if totals == [] then []
    else (if totals[0].rosterId == meta.rosterId then [Joined(meta, totals[0])] else []) + JoinOne(meta, totals[1..])
  }

  /** The inner join on roster_id, in the order of the roster map. */
  function InnerJoin(metas: seq<RosterMeta>, totals: seq<SeasonTotal>): seq<PowerRow>
  {
    if metas == [] then [] else JoinOne(metas[0], totals) + InnerJoin(metas[1..], totals)
  }

  lemma {:induction false} JoinOneMembers(meta: RosterMeta, totals: seq<SeasonTotal>, r: PowerRow)
    ensures r in JoinOne(meta, totals) <==>
      exists j :: 0 <= j < |totals| && totals[j].rosterId == meta.rosterId && r == Joined(meta, totals[j])
  {
    if totals != [] {
      JoinOneMembers(meta, totals[1..], r);
      assert forall j :: 1 <= j < |totals| ==> totals[j] == totals[1..][j - 1];
    }
  }

  /**
   * A row is in the inner join exactly when it joins some roster-map row with some
   * total of the same roster id: rosters on one side only are dropped.
   */
  lemma {:induction false} InnerJoinMembers(metas: seq<RosterMeta>, totals: seq<SeasonTotal>, r: PowerRow)
    ensures r in InnerJoin(metas, totals) <==>
      exists i, j :: 0 <= i < |metas| && 0 <= j < |totals| && totals[j].rosterId == metas[i].rosterId
                     && r == Joined(metas[i], totals[j])
  {
    if metas != [] {
      InnerJoinMembers(metas[1..], totals, r);
      JoinOneMembers(metas[0], totals, r);
      assert forall i :: 1 <= i < |metas| ==> metas[i] == metas[1..][i - 1];
    }
  }

  /** Every joined row's luckstat is its natural wins minus its expected wins. */
  lemma {:induction false} InnerJoinLuck(metas: seq<RosterMeta>, totals: seq<SeasonTotal>, k: nat)
    requires k < |InnerJoin(metas, totals)|
    ensures InnerJoin(metas, totals)[k].luckstat
         == InnerJoin(metas, totals)[k].naturalWins - InnerJoin(metas, totals)[k].expectedWins
  {
    var r := InnerJoin(metas, totals)[k];
    InnerJoinMembers(metas, totals, r);
  }

  // ---------------------------------------------------------------------------
  // sort_values(by="expected_wins", ascending=False), with ties kept in join order

  /** Expected wins never increase along s. */
  predicate Descending(s: seq<PowerRow>)
  {
    forall a, b :: 0 <= a < b < |s| ==> s[a].expectedWins >= s[b].expectedWins
  }

  /** Places r in front of the first row with no more expected wins than r. */
  function InsertByExpected(r: PowerRow, s: seq<PowerRow>): seq<PowerRow>
  {
    if s == [] then [r]
    else if s[0].expectedWins <= r.expectedWins then [r] + s
    else [s[0]] + InsertByExpected(r, s[1..])
  }

  /** The rows by expected wins, most first. */
  function SortByExpected(s: seq<PowerRow>): seq<PowerRow>
  {
    if s == [] then [] else InsertByExpected(s[0], SortByExpected(s[1..]))
  }

  lemma {:induction false} InsertByExpectedPermutes(r: PowerRow, s: seq<PowerRow>)
    ensures multiset(InsertByExpected(r, s)) == multiset(s) + multiset{r}
    decreases |s|
  {
    if s != [] && s[0].expectedWins > r.expectedWins {
      InsertByExpectedPermutes(r, s[1..]);
      assert s == [s[0]] + s[1..];
    }
  }

  lemma {:induction false} InsertByExpectedDescending(r: PowerRow, s: seq<PowerRow>)
    requires Descending(s)
    ensures Descending(InsertByExpected(r, s))
    decreases |s|
  {
    if s != [] && s[0].expectedWins > r.expectedWins {
      var t := InsertByExpected(r, s[1..]);
      InsertByExpectedDescending(r, s[1..]);
      InsertByExpectedPermutes(r, s[1..]);
      forall b | 0 <= b < |t| ensures s[0].expectedWins >= t[b].expectedWins {
        assert t[b] in multiset(t);
        if t[b] != r {
          assert t[b] in multiset(s[1..]);
          var c :| 0 <= c < |s[1..]| && s[1..][c] == t[b];
          assert s[c + 1] == t[b];
        }
      }
    }
  }

  /** Sorting keeps every row. */
  lemma {:induction false} SortByExpectedPermutes(s: seq<PowerRow>)
    ensures multiset(SortByExpected(s)) == multiset(s)
  {
    if s != [] {
      SortByExpectedPermutes(s[1..]);
      InsertByExpectedPermutes(s[0], SortByExpected(s[1..]));
      assert s == [s[0]] + s[1..];
    }
  }

  /** Sorted rows have expected wins in descending order. */
  lemma {:induction false} SortByExpectedDescending(s: seq<PowerRow>)
    ensures Descending(SortByExpected(s))
  {
    if s != [] {
      SortByExpectedDescending(s[1..]);
      InsertByExpectedDescending(s[0], SortByExpected(s[1..]));
    }
  }

  // ---------------------------------------------------------------------------
  // power_rankings

  /** power_rankings over a stacked season history and the roster map. */
  function PowerRankings(hist: seq<seq<Row>>, metas: seq<RosterMeta>): seq<PowerRow>
    requires |hist| > 0 && Rectangular(hist)
  {
    SortByExpected(InnerJoin(metas, SeasonTotals(hist)))
  }

  /** The ranking is in descending order of expected wins. */
  lemma PowerRankingsDescending(hist: seq<seq<Row>>, metas: seq<RosterMeta>)
    requires |hist| > 0 && Rectangular(hist)
    ensures Descending(PowerRankings(hist, metas))
  {
    SortByExpectedDescending(InnerJoin(metas, SeasonTotals(hist)));
  }

  /** A season total row of column j. */
  lemma SeasonTotalAt(hist: seq<seq<Row>>, j: nat)
    requires |hist| > 0 && Rectangular(hist) && j < |hist[0]|
    ensures SeasonTotals(hist)[j]
         == SeasonTotal(hist[0][j].rosterId, SumBy(hist, ExpectedAt(j)), SumBy(hist, NaturalAt(j)))
  {
  }

  /** The expected win of the first row of a week with roster id rid, 0 when there is none. */
  function ExpectedOfRoster(rid: int): seq<Row> -> real
  {
    (table: seq<Row>) => RowOfRoster(table, rid).expectedWin
  }

  /** The natural win of the first row of a week with roster id rid, 0 when there is none. */
  function NaturalOfRoster(rid: int): seq<Row> -> real
  {
    (table: seq<Row>) => RowOfRoster(table, rid).naturalWin
  }

  /** The first row of a week with roster id rid, or an all-zero row when there is none. */
  function RowOfRoster(table: seq<Row>, rid: int): Row
  {
    if table == [] then Row(rid, 0.0, 0.0, 0.0)
    else if table[0].rosterId == rid then table[0]
    else RowOfRoster(table[1..], rid)
  }

  /** The first row with a roster id that no earlier row carries is found at its place. */
  lemma {:induction false} RowOfRosterAt(table: seq<Row>, j: nat)
    requires j < |table| && forall i :: 0 <= i < j ==> table[i].rosterId != table[j].rosterId
    ensures RowOfRoster(table, table[j].rosterId) == table[j]
  {
    if j > 0 {
      assert table[0].rosterId != table[j].rosterId;
      assert forall i :: 0 <= i < j - 1 ==> table[1..][i] == table[i + 1];
      RowOfRosterAt(table[1..], j - 1);
    }
  }

  /** Every week of the history holds week 1's roster ids, column by column, and none twice. */
  predicate AlignedRosters(hist: seq<seq<Row>>)
    requires |hist| > 0 && Rectangular(hist)
  {
    (forall k, j :: 0 <= k < |hist| && 0 <= j < |hist[0]| ==> hist[k][j].rosterId == hist[0][j].rosterId)
    && forall a, b :: 0 <= a < b < |hist[0]| ==> hist[0][a].rosterId != hist[0][b].rosterId
  }

  /**
   * When the weeks line up by roster id, column j's season total is that roster's own
   * season: the sums over the weeks of the expected and natural wins of its row.
   */
  lemma SeasonTotalOfRoster(hist: seq<seq<Row>>, j: nat)
    requires |hist| > 0 && Rectangular(hist) && j < |hist[0]| && AlignedRosters(hist)
    ensures SeasonTotals(hist)[j].rosterId == hist[0][j].rosterId
    ensures SeasonTotals(hist)[j].expectedWins == SumBy(hist, ExpectedOfRoster(hist[0][j].rosterId))
    ensures SeasonTotals(hist)[j].naturalWins == SumBy(hist, NaturalOfRoster(hist[0][j].rosterId))
  {
    var rid := hist[0][j].rosterId;
    forall k | 0 <= k < |hist| ensures RowOfRoster(hist[k], rid) == hist[k][j] {
      assert hist[k][j].rosterId == rid;
      forall i | 0 <= i < j ensures hist[k][i].rosterId != rid {
        assert hist[k][i].rosterId == hist[0][i].rosterId;
      }
      RowOfRosterAt(hist[k], j);
    }
    SumByPointwise(hist, ExpectedAt(j), hist, ExpectedOfRoster(rid));
    SumByPointwise(hist, NaturalAt(j), hist, NaturalOfRoster(rid));
    SeasonTotalAt(hist, j);
  }

  /** Sorting neither adds nor loses a row. */
  lemma SortedMembers(s: seq<PowerRow>, r: PowerRow)
    ensures r in SortByExpected(s) <==> r in s
  {
    SortByExpectedPermutes(s);
    assert r in multiset(SortByExpected(s)) <==> r in multiset(s);
  }

  /**
   * r is the ranking row of roster-map row meta and season column j: they share a roster
   * id, and r carries the team name and wins of meta, the column's season expected and
   * natural wins, and their difference as luckstat.
   */
  predicate RowOfColumn(hist: seq<seq<Row>>, meta: RosterMeta, j: nat, r: PowerRow)
    requires |hist| > 0 && j < |hist[0]|
  {
    hist[0][j].rosterId == meta.rosterId
    && r == PowerRow(meta.teamName, meta.wins, SumBy(hist, ExpectedAt(j)), SumBy(hist, NaturalAt(j)),
                     SumBy(hist, NaturalAt(j)) - SumBy(hist, ExpectedAt(j)))
  }

  /** A row is in the ranking exactly when it is the row of some roster-map row and some season column. */
  lemma PowerRankingsRows(hist: seq<seq<Row>>, metas: seq<RosterMeta>, r: PowerRow)
    requires |hist| > 0 && Rectangular(hist)
    ensures r in PowerRankings(hist, metas) <==>
      exists i, j :: 0 <= i < |metas| && 0 <= j < |hist[0]| && RowOfColumn(hist, metas[i], j, r)
  {
    var totals := SeasonTotals(hist);
    SortedMembers(InnerJoin(metas, totals), r);
    InnerJoinMembers(metas, totals, r);
    if r in InnerJoin(metas, totals) {
      var i, j :| 0 <= i < |metas| && 0 <= j < |totals| && totals[j].rosterId == metas[i].rosterId
                  && r == Joined(metas[i], totals[j]);
      SeasonTotalAt(hist, j);
      assert RowOfColumn(hist, metas[i], j, r);
    }
    if exists i, j :: 0 <= i < |metas| && 0 <= j < |hist[0]| && RowOfColumn(hist, metas[i], j, r) {
      var i, j :| 0 <= i < |metas| && 0 <= j < |hist[0]| && RowOfColumn(hist, metas[i], j, r);
      SeasonTotalAt(hist, j);
      assert r == Joined(metas[i], totals[j]);
    }
  }

  /** The ranking holds the joined rows, each as often as the join produces it. */
  lemma PowerRankingsPermutes(hist: seq<seq<Row>>, metas: seq<RosterMeta>)
    requires |hist| > 0 && Rectangular(hist)
    ensures multiset(PowerRankings(hist, metas)) == multiset(InnerJoin(metas, SeasonTotals(hist)))
  {
    SortByExpectedPermutes(InnerJoin(metas, SeasonTotals(hist)));
  }

  // ---------------------------------------------------------------------------
  // The whole league

  /**
   * The power ranking of a league: the season history of the regular-season window
   * joined with the roster map of its rosters and members. The history is computed
   * first; an empty roster map has no roster_id column to merge on.
   */
  function LeaguePowerRankings(settings: LeagueSettings, fetch: int -> seq<MatchupRecord>,
                               rosters: seq<RosterRecord>, members: seq<MemberRecord>): Result<seq<PowerRow>>
  {
    match HistoricalResults(settings, fetch)
    case Err(e) => Err(e)
    case Ok(hist) =>
      HistoricalResultsShape(settings, fetch);
      var metas := RosterMapSpec(rosters, members);
      if metas == [] then Err(NoRosterMeta)
      else Ok(PowerRankings(hist, metas))
  }

  /**
   * The league ranking exists exactly when the season history does and some member owns
   * a roster; a history error comes first, then the missing roster map. A ranking is sorted.
   */
  lemma LeaguePowerRankingsSpec(settings: LeagueSettings, fetch: int -> seq<MatchupRecord>,
                                rosters: seq<RosterRecord>, members: seq<MemberRecord>)
    ensures LeaguePowerRankings(settings, fetch, rosters, members).Ok? <==>
      HistoricalResults(settings, fetch).Ok? && RosterMapSpec(rosters, members) != []
    ensures HistoricalResults(settings, fetch).Err? ==>
      LeaguePowerRankings(settings, fetch, rosters, members).error == HistoricalResults(settings, fetch).error
    ensures HistoricalResults(settings, fetch).Ok? && RosterMapSpec(rosters, members) == [] ==>
      LeaguePowerRankings(settings, fetch, rosters, members) == Err(NoRosterMeta)
    ensures LeaguePowerRankings(settings, fetch, rosters, members).Ok? ==>
      Descending(LeaguePowerRankings(settings, fetch, rosters, members).value)
  {
    if HistoricalResults(settings, fetch).Ok? && RosterMapSpec(rosters, members) != [] {
      HistoricalResultsShape(settings, fetch);
      PowerRankingsDescending(HistoricalResults(settings, fetch).value, RosterMapSpec(rosters, members));
    }
  }

  /** An empty member list owns no roster, so the league ranking cannot be formed. */
  lemma NoMembersNoRanking(settings: LeagueSettings, fetch: int -> seq<MatchupRecord>, rosters: seq<RosterRecord>)
    requires HistoricalResults(settings, fetch).Ok?
    ensures LeaguePowerRankings(settings, fetch, rosters, []) == Err(NoRosterMeta)
  {
    RosterMapEmpty(rosters, []);
  }

  // ---------------------------------------------------------------------------
  // League-wide totals

  function TotalExpected(t: SeasonTotal): real
  {
    t.expectedWins
  }

  /** Column j's season expected wins. */
  function ColumnExpected(hist: seq<seq<Row>>): nat -> real
  {
    (j: nat) => SumBy(hist, ExpectedAt(j))
  }

  /** One week's expected win in each column. */
  function WeekColumns(table: seq<Row>): nat -> real
  {
    (j: nat) => ExpectedAt(j)(table)
  }

  /** A week's expected wins, summed over its rows. */
  function WeekExpected(table: seq<Row>): real
  {
    SumBy(table, ExpectedWinOf)
  }

  /** The columns of one week, read through ExpectedAt, sum to that week's expected wins. */
  lemma ColumnsOfOneWeek(table: seq<Row>)
    ensures SumBy(Range(|table|), WeekColumns(table)) == WeekExpected(table)
  {
    var cols := Range(|table|);
    forall k | 0 <= k < |table| ensures WeekColumns(table)(cols[k]) == ExpectedWinOf(table[k]) {
      assert cols[k] == k;
      assert WeekColumns(table)(k) == ExpectedAt(k)(table) == table[k].expectedWin;
    }
    SumByPointwise(cols, WeekColumns(table), table, ExpectedWinOf);
  }

  /**
   * Summing the season totals of all columns adds up the same numbers as summing each
   * week's expected wins over the weeks.
   */
  lemma {:induction false} SwapSums(hist: seq<seq<Row>>, n: nat)
    requires forall k :: 0 <= k < |hist| ==> |hist[k]| == n
    ensures SumBy(Range(n), ColumnExpected(hist)) == SumBy(hist, WeekExpected)
    decreases |hist|
  {
    var cols := Range(n);
    if hist == [] {
      SumByConstant(cols, ColumnExpected(hist), 0.0);
    } else {
      var first, rest := hist[0], hist[1..];
      var f, g := WeekColumns(first), ColumnExpected(rest);
      assert forall k :: 1 <= k < |hist| ==> rest[k - 1] == hist[k];
      SwapSums(rest, n);
      SumByAdd(cols, f, g);
      forall k | 0 <= k < n ensures ColumnExpected(hist)(cols[k]) == Plus(f, g)(cols[k]) {
        assert SumBy(hist, ExpectedAt(cols[k])) == ExpectedAt(cols[k])(first) + SumBy(rest, ExpectedAt(cols[k]));
      }
      SumByPointwise(cols, ColumnExpected(hist), cols, Plus(f, g));
      ColumnsOfOneWeek(first);
      assert SumBy(hist, WeekExpected) == WeekExpected(first) + SumBy(rest, WeekExpected);
    }
  }

  /** Season totals hold the column sums, so the league's total is the sum over the columns. */
  lemma TotalsAreColumns(hist: seq<seq<Row>>)
    requires |hist| > 0 && Rectangular(hist)
    ensures SumBy(SeasonTotals(hist), TotalExpected) == SumBy(Range(|hist[0]|), ColumnExpected(hist))
  {
    var cols := Range(|hist[0]|);
    forall k | 0 <= k < |hist[0]| ensures TotalExpected(SeasonTotals(hist)[k]) == ColumnExpected(hist)(cols[k]) {
      assert cols[k] == k;
    }
    SumByPointwise(SeasonTotals(hist), TotalExpected, cols, ColumnExpected(hist));
  }

  /** Every week of the history hands out half a win per team. */
  predicate HalfWinPerTeam(hist: seq<seq<Row>>)
  {
    forall k :: 0 <= k < |hist| ==> SumBy(hist[k], ExpectedWinOf) == |hist[k]| as real / 2.0
  }

  /** Weeks of n rows that each hand out n/2 expected wins add up to n/2 per week. */
  lemma WeeksOfHalfWins(hist: seq<seq<Row>>)
    requires |hist| > 0 && Rectangular(hist) && HalfWinPerTeam(hist)
    ensures SumBy(hist, WeekExpected) == |hist| as real * (|hist[0]| as real / 2.0)
  {
    var half := |hist[0]| as real / 2.0;
    forall k | 0 <= k < |hist| ensures WeekExpected(hist[k]) == half {
    }
    SumByConstant(hist, WeekExpected, half);
  }

  /**
   * When every week hands out half a win per team in expected wins, the season totals
   * of all rosters add up to half a win per team per week.
   */
  lemma SeasonExpectedTotal(hist: seq<seq<Row>>)
    requires |hist| > 0 && Rectangular(hist)
    requires HalfWinPerTeam(hist)
    ensures SumBy(SeasonTotals(hist), TotalExpected) == |hist| as real * (|hist[0]| as real / 2.0)
  {
    WeeksOfHalfWins(hist);
    SwapSums(hist, |hist[0]|);
    TotalsAreColumns(hist);
  }

  /**
   * Over a season history, the expected wins of all rosters together are half a win per
   * team per week: every week hands out n/2 all-play wins.
   */
  lemma LeagueExpectedWinsTotal(settings: LeagueSettings, fetch: int -> seq<MatchupRecord>, hist: seq<seq<Row>>)
    requires HistoricalResults(settings, fetch) == Ok(hist)
    ensures |hist| > 0 && Rectangular(hist)
    ensures SumBy(SeasonTotals(hist), TotalExpected) == |hist| as real * (|hist[0]| as real / 2.0)
  {
    HistoricalResultsShape(settings, fetch);
    assert HalfWinPerTeam(hist) by {
      forall k | 0 <= k < |hist| ensures SumBy(hist[k], ExpectedWinOf) == |hist[k]| as real / 2.0 {
        HistoryWeekExpectedSum(settings, fetch, k);
      }
    }
    SeasonExpectedTotal(hist);
  }
}
