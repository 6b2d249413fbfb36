/**
 * The week table: one row per performance, ordered by roster id, carrying the
 * natural win and the all-play expected win rank/(n-1).
 */
module WeekResults {
  import opened Outcomes
  import opened Sums
  import opened Sorting
  import opened Pairing

  /** A row of the raw array: (roster_id, points, natural_wins). */
  datatype Entry = Entry(rosterId: int, points: real, naturalWin: real)

  /** A row of the final array: (roster_id, points, natural_wins, expected_wins). */
  datatype Row = Row(rosterId: int, points: real, naturalWin: real, expectedWin: real)

  /** The raw row of a performance that has an opponent in its week. */
  function EntryFor(p: MatchupRecord, week: seq<MatchupRecord>): Entry
    requires Opponent(p, week).Some?
  {
    Entry(p.rosterId, p.points, NaturalWin(p.points, Opponent(p, week).value.points))
  }

  /**
   * The raw array for the performances perfs, each paired inside week, in order; the
   * first performance without an opponent stops it.
   */
  function RawEntries(perfs: seq<MatchupRecord>, week: seq<MatchupRecord>): Result<seq<Entry>>
  {
    if perfs == [] then Ok([])
    else if Opponent(perfs[0], week).None? then Err(NoOpponent(perfs[0].rosterId))
    else match RawEntries(perfs[1..], week)
      case Err(e) => Err(e)
      case Ok(rest) => Ok([EntryFor(perfs[0], week)] + rest)
  }

  /** Every performance of perfs has an opponent in week. */
  predicate AllPaired(perfs: seq<MatchupRecord>, week: seq<MatchupRecord>)
  {
    forall k :: 0 <= k < |perfs| ==> Opponent(perfs[k], week).Some?
  }

  /**
   * The raw array succeeds exactly when every performance has an opponent, and then
   * holds one row per performance in order; otherwise it reports the first unpaired one.
   */
  lemma {:induction false} RawEntriesSpec(perfs: seq<MatchupRecord>, week: seq<MatchupRecord>)
    ensures RawEntries(perfs, week).Ok? <==> AllPaired(perfs, week)
    ensures RawEntries(perfs, week).Ok? ==>
      |RawEntries(perfs, week).value| == |perfs| &&
      forall k :: 0 <= k < |perfs| ==> RawEntries(perfs, week).value[k] == EntryFor(perfs[k], week)
    ensures RawEntries(perfs, week).Err? ==>
      exists k :: 0 <= k < |perfs| && Opponent(perfs[k], week).None?
        && RawEntries(perfs, week).error == NoOpponent(perfs[k].rosterId)
        && forall j :: 0 <= j < k ==> Opponent(perfs[j], week).Some?
  {
    if perfs != [] && Opponent(perfs[0], week).Some? {
      var tail := perfs[1..];
      RawEntriesSpec(tail, week);
      assert forall k :: 1 <= k < |perfs| ==> perfs[k] == tail[k - 1];
      if RawEntries(tail, week).Err? {
        var k :| 0 <= k < |tail| && Opponent(tail[k], week).None?
          && RawEntries(tail, week).error == NoOpponent(tail[k].rosterId)
          && forall j :: 0 <= j < k ==> Opponent(tail[j], week).Some?;
        assert Opponent(perfs[k + 1], week).None?;
      }
    } else if perfs != [] {
      assert Opponent(perfs[0], week).None?;
    }
  }

  /** A one-entry week cannot pair its only performance. */
  lemma LoneWeekUnpaired(week: seq<MatchupRecord>)
    requires |week| == 1
    ensures RawEntries(week, week) == Err(NoOpponent(week[0].rosterId))
  {
    assert week == [week[0]];
    LoneEntryHasNoOpponent(week[0]);
  }

  /** When the raw array of a week exists, the week has at least two entries or none. */
  lemma RawEntriesSize(week: seq<MatchupRecord>)
    ensures RawEntries(week, week).Ok? ==> |RawEntries(week, week).value| == |week| != 1
  {
    RawEntriesSpec(week, week);
    if |week| == 1 {
      LoneWeekUnpaired(week);
    }
  }

  /** The roster ids of the raw rows, as the float keys numpy sorts them by. */
  function RosterKeys(es: seq<Entry>): (keys: seq<real>)
    ensures |keys| == |es|
  {
    seq(|es|, k requires 0 <= k < |es| => es[k].rosterId as real)
  }

  /** The points column of the raw rows. */
  function PointsOf(es: seq<Entry>): (points: seq<real>)
    ensures |points| == |es|
  {
    seq(|es|, k requires 0 <= k < |es| => es[k].points)
  }

  /** The raw rows reordered by roster id (numpy's argsort on column 0). */
  function ByRoster(es: seq<Entry>): (ordered: seq<Entry>)
    ensures |ordered| == |es|
  {
    Gather(es, ArgSort(RosterKeys(es)))
  }

  /** Appends to each row its rank by points divided by n-1. */
  function WithExpected(es: seq<Entry>): (rows: seq<Row>)
    requires |es| >= 2
    ensures |rows| == |es|
  {
    var n := |es|;
    var ranks := Ranks(PointsOf(es));
    seq(n, k requires 0 <= k < n => Row(es[k].rosterId, es[k].points, es[k].naturalWin, ranks[k] as real / (n - 1) as real))
  }

  /** WeekResults.array for a week's matchup data. */
  function WeekArray(week: seq<MatchupRecord>): Result<seq<Row>>
  {
    match RawEntries(week, week)
    case Err(e) => Err(e)
    case Ok(raw) =>
      RawEntriesSize(week);
      if |raw| == 0 then Err(EmptyWeek) else Ok(WithExpected(ByRoster(raw)))
  }

  /** The first three columns of a row. */
  function Strip(row: Row): Entry
  {
    Entry(row.rosterId, row.points, row.naturalWin)
  }

  /** The first three columns of every row. */
  function StripAll(rows: seq<Row>): (es: seq<Entry>)
    ensures |es| == |rows|
  {
    seq(|rows|, k requires 0 <= k < |rows| => Strip(rows[k]))
  }

  function ExpectedWinOf(row: Row): real
  {
    row.expectedWin
  }

  lemma FractionOrder(x: real, y: real, d: real)
    requires d > 0.0
    ensures x / d < y / d <==> x < y
  {
    assert x / d * d == x && y / d * d == y;
    if x / d < y / d {
      assert x / d * d < y / d * d;
    }
  }

  lemma FractionBounds(x: real, d: real)
    requires 0.0 <= x <= d && d > 0.0
    ensures 0.0 <= x / d <= 1.0
  {
    FractionOrder(x, d, d);
    assert x / d * d == x;
  }

  lemma WholeFraction(d: real)
    requires d > 0.0
    ensures d / d == 1.0
  {
  }

  lemma HalfOfProduct(n: nat)
    requires n >= 2
    ensures (n * (n - 1)) as real / 2.0 / (n - 1) as real == n as real / 2.0
  {
    var d := (n - 1) as real;
    assert (n * (n - 1)) as real == n as real * d;
    assert n as real * d / 2.0 / d == n as real / 2.0;
  }

  // ---------------------------------------------------------------------------
  // The expected-win column, for any rows of at least two entries

  /** Adding the expected-win column leaves the first three columns as they were. */
  lemma WithExpectedKeepsEntries(es: seq<Entry>)
    requires |es| >= 2
    ensures StripAll(WithExpected(es)) == es
  {
  }

  /** The expected win of a row is its ordinal rank by points over n-1. */
  lemma ExpectedWinIsRank(es: seq<Entry>, a: nat)
    requires |es| >= 2 && a < |es|
    ensures |Ranks(PointsOf(es))| == |es|
    ensures WithExpected(es)[a].expectedWin == Ranks(PointsOf(es))[a] as real / (|es| - 1) as real
  {
  }

  /**
   * All-play reading: the expected win of a row is the share of the other n-1 rows
   * that sort before it by points (fewer points, or equal points at an earlier row).
   */
  lemma ExpectedWinCountsBeaten(es: seq<Entry>, a: nat)
    requires |es| >= 2 && a < |es|
    ensures WithExpected(es)[a].expectedWin
         == SumBy(Range(|es|), Outranked(PointsOf(es), a)) / (|es| - 1) as real
  {
    ExpectedWinIsRank(es, a);
    RankCountsPreceding(PointsOf(es), a);
  }

  /** Every expected win lies in [0, 1]. */
  lemma ExpectedWinBounds(es: seq<Entry>, a: nat)
    requires |es| >= 2 && a < |es|
    ensures 0.0 <= WithExpected(es)[a].expectedWin <= 1.0
  {
    var points := PointsOf(es);
    ExpectedWinIsRank(es, a);
    OrderAtRanks(points);
    FractionBounds(Ranks(points)[a] as real, (|es| - 1) as real);
  }

  /**
   * Expected wins follow the points exactly: row a's is below row b's iff a has fewer
   * points, or equal points and comes first.
   */
  lemma ExpectedWinOrder(es: seq<Entry>, a: nat, b: nat)
    requires |es| >= 2 && a < |es| && b < |es|
    ensures WithExpected(es)[a].expectedWin < WithExpected(es)[b].expectedWin
        <==> Precedes(PointsOf(es), a, b)
  {
    var points := PointsOf(es);
    var d := (|es| - 1) as real;
    ExpectedWinIsRank(es, a);
    ExpectedWinIsRank(es, b);
    RanksOrder(points, a, b);
    FractionOrder(Ranks(points)[a] as real, Ranks(points)[b] as real, d);
  }

  /** Strictly more points gives a strictly larger expected win. */
  lemma MorePointsMoreExpected(es: seq<Entry>, a: nat, b: nat)
    requires |es| >= 2 && a < |es| && b < |es|
    requires es[a].points < es[b].points
    ensures WithExpected(es)[a].expectedWin < WithExpected(es)[b].expectedWin
  {
    ExpectedWinOrder(es, a, b);
  }

  /** Tied scores get distinct expected wins, the earlier row the smaller one. */
  lemma TiesBrokenByPosition(es: seq<Entry>, a: nat, b: nat)
    requires |es| >= 2 && a < b < |es|
    requires es[a].points == es[b].points
    ensures WithExpected(es)[a].expectedWin < WithExpected(es)[b].expectedWin
  {
    ExpectedWinOrder(es, a, b);
  }

  /** The expected win of the row holding rank r is r/(n-1). */
  lemma ExpectedWinAtRank(es: seq<Entry>, a: nat, r: nat)
    requires |es| >= 2 && a < |es|
    requires |Ranks(PointsOf(es))| == |es| && Ranks(PointsOf(es))[a] == r
    ensures WithExpected(es)[a].expectedWin == r as real / (|es| - 1) as real
  {
    ExpectedWinIsRank(es, a);
  }

  /** The row first in points order gets 0. */
  lemma FirstPlaceGetsZero(es: seq<Entry>)
    requires |es| >= 2
    ensures ArgSort(PointsOf(es))[0] < |es|
    ensures WithExpected(es)[ArgSort(PointsOf(es))[0]].expectedWin == 0.0
  {
    var points := PointsOf(es);
    RankOfPlace(points, 0);
    ExpectedWinAtRank(es, ArgSort(points)[0], 0);
  }

  /** The row last in points order gets 1. */
  lemma LastPlaceGetsOne(es: seq<Entry>)
    requires |es| >= 2
    ensures ArgSort(PointsOf(es))[|es| - 1] < |es|
    ensures WithExpected(es)[ArgSort(PointsOf(es))[|es| - 1]].expectedWin == 1.0
  {
    var points := PointsOf(es);
    var n := |es|;
    var d := (n - 1) as real;
    var last := ArgSort(points)[n - 1];
    assert Ranks(points)[last] == n - 1 by {
      RankOfPlace(points, n - 1);
    }
    assert WithExpected(es)[last].expectedWin == (n - 1) as real / d by {
      ExpectedWinAtRank(es, last, n - 1);
    }
    WholeFraction(d);
  }

  /** A row with fewer points than every other row gets 0. */
  lemma UniqueLowestGetsZero(es: seq<Entry>, a: nat)
    requires |es| >= 2 && a < |es|
    requires forall b :: 0 <= b < |es| && b != a ==> es[a].points < es[b].points
    ensures WithExpected(es)[a].expectedWin == 0.0
  {
    var points := PointsOf(es);
    var order := ArgSort(points);
    FirstPlaceGetsZero(es);
    if order[0] != a {
      ExpectedWinOrder(es, a, order[0]);
      ExpectedWinBounds(es, a);
      assert false;
    }
  }

  /** A row with more points than every other row gets 1. */
  lemma UniqueHighestGetsOne(es: seq<Entry>, a: nat)
    requires |es| >= 2 && a < |es|
    requires forall b :: 0 <= b < |es| && b != a ==> es[b].points < es[a].points
    ensures WithExpected(es)[a].expectedWin == 1.0
  {
    var points := PointsOf(es);
    var order := ArgSort(points);
    var n := |es|;
    LastPlaceGetsOne(es);
    if order[n - 1] != a {
      ExpectedWinOrder(es, order[n - 1], a);
      ExpectedWinBounds(es, a);
      assert false;
    }
  }

  /** The expected wins of a week sum to n/2: the ranks are 0 .. n-1. */
  lemma ExpectedWinsSum(es: seq<Entry>)
    requires |es| >= 2
    ensures SumBy(WithExpected(es), ExpectedWinOf) == |es| as real / 2.0
  {
    var n := |es|;
    var d := (n - 1) as real;
    var rows := WithExpected(es);
    var ranks := Ranks(PointsOf(es));
    forall k | 0 <= k < n ensures ExpectedWinOf(rows[k]) == Scaled(d)(ranks[k]) {
      ExpectedWinIsRank(es, k);
    }
    SumByPointwise(rows, ExpectedWinOf, ranks, Scaled(d));
    SumByPermutation(ranks, Range(n), Scaled(d));
    SumOfRange(n, d);
    HalfOfProduct(n);
  }

  // ---------------------------------------------------------------------------
  // The roster-id ordering

  /** Reordering by roster id keeps every raw row. */
  lemma ByRosterPermutes(es: seq<Entry>)
    ensures multiset(ByRoster(es)) == multiset(es)
  {
    GatherArgSort(es, RosterKeys(es));
  }

  /** Reordered rows are in ascending roster id order. */
  lemma ByRosterSorted(es: seq<Entry>, a: nat, b: nat)
    requires a < b < |es|
    ensures ByRoster(es)[a].rosterId <= ByRoster(es)[b].rosterId
  {
    var keys := RosterKeys(es);
    var order := ArgSort(keys);
    ArgSortSorted(keys);
    assert Precedes(keys, order[a], order[b]);
    GatherAt(es, order, a);
    GatherAt(es, order, b);
  }

  // ---------------------------------------------------------------------------
  // WeekResults.array

  /** The raw rows of a week in which every performance is paired, in the week's order. */
  function PairedRows(week: seq<MatchupRecord>): (es: seq<Entry>)
    requires AllPaired(week, week)
    ensures |es| == |week|
  {
    seq(|week|, k requires 0 <= k < |week| => EntryFor(week[k], week))
  }

  /**
   * The week table exists exactly when the week is non-empty and every performance
   * has an opponent; an empty week and an unpaired performance are reported.
   */
  lemma WeekArrayOutcome(week: seq<MatchupRecord>)
    ensures WeekArray(week).Ok? <==> |week| > 0 && AllPaired(week, week)
    ensures |week| == 0 ==> WeekArray(week) == Err(EmptyWeek)
    ensures |week| == 1 ==> WeekArray(week) == Err(NoOpponent(week[0].rosterId))
    ensures !AllPaired(week, week) ==>
      exists k :: 0 <= k < |week| && Opponent(week[k], week).None?
        && WeekArray(week) == Err(NoOpponent(week[k].rosterId))
        && forall j :: 0 <= j < k ==> Opponent(week[j], week).Some?
  {
    RawEntriesSpec(week, week);
    if |week| == 1 {
      LoneWeekUnpaired(week);
    }
  }

  /**
   * A successful table has one row per performance, at least two, and each row is its
   * first three columns with the expected-win column added.
   */
  lemma WeekArrayShape(week: seq<MatchupRecord>)
    requires WeekArray(week).Ok?
    ensures |WeekArray(week).value| == |week| >= 2
    ensures WeekArray(week).value == WithExpected(StripAll(WeekArray(week).value))
  {
    RawEntriesSize(week);
    var es := ByRoster(RawEntries(week, week).value);
    WithExpectedKeepsEntries(es);
  }

  /** A successful raw array is the paired rows of the week. */
  lemma RawEntriesArePairedRows(week: seq<MatchupRecord>)
    requires RawEntries(week, week).Ok?
    ensures AllPaired(week, week) && RawEntries(week, week).value == PairedRows(week)
  {
    RawEntriesSpec(week, week);
  }

  /** The table's first three columns are the week's raw rows, reordered. */
  lemma WeekArrayPermutes(week: seq<MatchupRecord>)
    requires WeekArray(week).Ok?
    ensures AllPaired(week, week)
    ensures multiset(StripAll(WeekArray(week).value)) == multiset(PairedRows(week))
  {
    var raw := RawEntries(week, week).value;
    RawEntriesArePairedRows(week);
    RawEntriesSize(week);
    var ordered := ByRoster(raw);
    assert StripAll(WeekArray(week).value) == ordered by {
      WithExpectedKeepsEntries(ordered);
    }
    ByRosterPermutes(raw);
  }

  /** Every row of the table is some performance of the week with its natural win. */
  lemma WeekArrayRowsComeFromWeek(week: seq<MatchupRecord>, a: nat)
    requires WeekArray(week).Ok? && a < |WeekArray(week).value|
    ensures AllPaired(week, week)
    ensures exists k :: 0 <= k < |week| && Strip(WeekArray(week).value[a]) == EntryFor(week[k], week)
  {
    var rows := WeekArray(week).value;
    WeekArrayPermutes(week);
    var es := PairedRows(week);
    var k := FindInPermutation(StripAll(rows), es, a);
    assert Strip(rows[a]) == StripAll(rows)[a];
    assert es[k] == EntryFor(week[k], week);
  }

  /** The rows of the table are in ascending roster id order. */
  lemma WeekArraySortedByRoster(week: seq<MatchupRecord>, a: nat, b: nat)
    requires WeekArray(week).Ok? && a < b < |WeekArray(week).value|
    ensures WeekArray(week).value[a].rosterId <= WeekArray(week).value[b].rosterId
  {
    var raw := RawEntries(week, week).value;
    RawEntriesSize(week);
    WithExpectedKeepsEntries(ByRoster(raw));
    ByRosterSorted(raw, a, b);
  }

  /** The expected wins of a week's table sum to half the number of teams. */
  lemma WeekExpectedWinsSum(week: seq<MatchupRecord>)
    requires WeekArray(week).Ok?
    ensures SumBy(WeekArray(week).value, ExpectedWinOf) == |week| as real / 2.0
  {
    WeekArrayShape(week);
    ExpectedWinsSum(StripAll(WeekArray(week).value));
  }

  // ---------------------------------------------------------------------------
  // Natural wins of a well-formed week

  /** The natural win of a performance in its week, 0 without an opponent. */
  function NaturalWinIn(week: seq<MatchupRecord>): MatchupRecord -> real
  {
    p => match NaturalWinOf(p, week) case Some(w) => w case None => 0.0
  }

  function EntryNaturalWin(e: Entry): real
  {
    e.naturalWin
  }

  function RowNaturalWin(row: Row): real
  {
    row.naturalWin
  }

  /** The opponent of a performance in its week, the performance itself without one. */
  function OpponentIn(week: seq<MatchupRecord>): MatchupRecord -> MatchupRecord
  {
    p => match Opponent(p, week) case Some(o) => o case None => p
  }

  /** No two entries of a week with distinct rosters are equal. */
  lemma DistinctEntries(week: seq<MatchupRecord>)
    requires DistinctRosters(week)
    ensures Distinct(week)
  {
    forall a, b | 0 <= a < b < |week| ensures week[a] != week[b] {
      assert week[a].rosterId != week[b].rosterId;
    }
  }

  /** Two performances that are each other's opponent share one natural win. */
  lemma MutualOpponents(week: seq<MatchupRecord>, p: MatchupRecord, q: MatchupRecord)
    requires Opponent(p, week) == Some(q) && Opponent(q, week) == Some(p)
    ensures OpponentIn(week)(p) == q && OpponentIn(week)(q) == p
    ensures NaturalWinIn(week)(q) == 1.0 - NaturalWinIn(week)(p)
  {
    PairedNaturalWins(p, q, week);
  }

  /**
   * When p's opponent in the week has p as its opponent, that opponent is an entry of
   * the week, and the two natural wins add up to 1.
   */
  lemma PairedAt(week: seq<MatchupRecord>, p: MatchupRecord)
    requires Opponent(p, week).Some? && Opponent(Opponent(p, week).value, week) == Some(p)
    ensures OpponentIn(week)(p) in week
    ensures OpponentIn(week)(OpponentIn(week)(p)) == p
    ensures NaturalWinIn(week)(OpponentIn(week)(p)) == 1.0 - NaturalWinIn(week)(p)
  {
    MutualOpponents(week, p, Opponent(p, week).value);
  }

  /** A well-formed week pairs its entries up, each pair sharing one natural win. */
  lemma WeekPairsUp(week: seq<MatchupRecord>)
    requires WellFormedWeek(week)
    ensures PairsUp(week, OpponentIn(week), NaturalWinIn(week))
  {
    DistinctEntries(week);
    forall k | 0 <= k < |week|
      ensures OpponentIn(week)(week[k]) in week && OpponentIn(week)(OpponentIn(week)(week[k])) == week[k]
      ensures NaturalWinIn(week)(OpponentIn(week)(week[k])) == 1.0 - NaturalWinIn(week)(week[k])
    {
      OpponentSymmetric(week, k);
      PairedAt(week, week[k]);
    }
  }

  /** Every game of a well-formed week hands out one natural win, so the week's sum is n/2. */
  lemma WellFormedNaturalWinsSum(week: seq<MatchupRecord>)
    requires WellFormedWeek(week)
    ensures SumBy(week, NaturalWinIn(week)) == |week| as real / 2.0
  {
    WeekPairsUp(week);
    PairedSumIsHalf(week, OpponentIn(week), NaturalWinIn(week));
  }

  /** Rows whose first three columns reorder a week's raw rows carry the week's natural wins. */
  lemma RowsNaturalWins(rows: seq<Row>, week: seq<MatchupRecord>)
    requires AllPaired(week, week) && multiset(StripAll(rows)) == multiset(PairedRows(week))
    ensures SumBy(rows, RowNaturalWin) == SumBy(week, NaturalWinIn(week))
  {
    var paired, stripped := PairedRows(week), StripAll(rows);
    assert SumBy(rows, RowNaturalWin) == SumBy(stripped, EntryNaturalWin) by {
      SumByPointwise(rows, RowNaturalWin, stripped, EntryNaturalWin);
    }
    SumByPermutation(stripped, paired, EntryNaturalWin);
    assert SumBy(paired, EntryNaturalWin) == SumBy(week, NaturalWinIn(week)) by {
      forall k | 0 <= k < |week| ensures EntryNaturalWin(paired[k]) == NaturalWinIn(week)(week[k]) {
        assert paired[k] == EntryFor(week[k], week);
      }
      SumByPointwise(paired, EntryNaturalWin, week, NaturalWinIn(week));
    }
  }

  /** The natural wins in a well-formed week's table sum to half the number of teams. */
  lemma WeekNaturalWinsSum(week: seq<MatchupRecord>)
    requires WeekArray(week).Ok? && WellFormedWeek(week)
    ensures SumBy(WeekArray(week).value, RowNaturalWin) == |week| as real / 2.0
  {
    WeekArrayPermutes(week);
    RowsNaturalWins(WeekArray(week).value, week);
    WellFormedNaturalWinsSum(week);
  }

  // ---------------------------------------------------------------------------
  // Ordinal ranks on a tie

  /** The stable argsort of four scores a > b == c > d. */
  lemma TiedMiddleOrder(p: seq<real>)
    requires |p| == 4 && p[0] > p[1] == p[2] > p[3]
    ensures ArgSort(p) == [3, 1, 2, 0]
  {
    assert SortPrefix(p, 1) == Insert(p, [], 0) == [0];
    assert SortPrefix(p, 2) == Insert(p, [0], 1) == [1, 0];
    assert SortPrefix(p, 3) == Insert(p, [1, 0], 2) == [1, 2, 0];
    assert SortPrefix(p, 4) == Insert(p, [1, 2, 0], 3) == [3, 1, 2, 0];
  }

  /**
   * Four teams scoring a > b == c > d: the two tied teams do not share a rank but
   * get 1/3 and 2/3, the earlier row the smaller.
   */
  lemma TiedMiddleScoresSplit(es: seq<Entry>)
    requires |es| == 4 && es[0].points > es[1].points == es[2].points > es[3].points
    ensures WithExpected(es)[1].expectedWin == 1.0 / 3.0 && WithExpected(es)[2].expectedWin == 2.0 / 3.0
  {
    var p := PointsOf(es);
    TiedMiddleOrder(p);
    RanksInvertOrder(p);
    var ranks := Ranks(p);
    assert ranks[1] == 1 && ranks[2] == 2 by {
      assert ArgSort(p)[1] == 1 && ArgSort(p)[2] == 2;
    }
    ExpectedWinIsRank(es, 1);
    ExpectedWinIsRank(es, 2);
    assert (|es| - 1) as real == 3.0;
  }
}
