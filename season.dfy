/**
 * The regular-season window and the stacked week tables of the season.
 */
module Season {
  import opened Outcomes
  import opened Sums
  import opened Pairing
  import opened WeekResults

  /** The two league settings the window reads. */
  datatype LeagueSettings = LeagueSettings(playoffWeekStart: int, leg: int)

  /** latest_reg_season_week: the playoff start or the current week, whichever is earlier. */
  function LatestRegSeasonWeek(settings: LeagueSettings): (w: int)
    ensures w <= settings.playoffWeekStart && w <= settings.leg
    ensures w == settings.playoffWeekStart || w == settings.leg
  {
    if settings.leg < settings.playoffWeekStart then settings.leg else settings.playoffWeekStart
  }

  /** The weeks 1, 2, ..., cutoff-1 (Python's range(1, cutoff)). */
  function SeasonWeeks(cutoff: int): (weeks: seq<int>)
    ensures |weeks| == if cutoff <= 1 then 0 else cutoff - 1
    ensures forall k :: 0 <= k < |weeks| ==> weeks[k] == k + 1
  {
    if cutoff <= 1 then [] else SeasonWeeks(cutoff - 1) + [cutoff - 1]
  }

  /** The window holds exactly the weeks before the cutoff, each once, in ascending order. */
  lemma SeasonWeeksWindow(cutoff: int)
    ensures forall w :: w in SeasonWeeks(cutoff) <==> 1 <= w < cutoff
    ensures forall a, b :: 0 <= a < b < |SeasonWeeks(cutoff)| ==> SeasonWeeks(cutoff)[a] < SeasonWeeks(cutoff)[b]
  {
    var weeks := SeasonWeeks(cutoff);
    forall w | 1 <= w < cutoff ensures w in weeks {
      assert weeks[w - 1] == w;
    }
  }

  /** The week table of a week number, read from that week's fetched matchup data. */
  function Tabulator(fetch: int -> seq<MatchupRecord>): int -> Result<seq<Row>>
  {
    w => WeekArray(fetch(w))
  }

  /** The table of every week of weeks, in order; the first failing week stops it. */
  function WeekTables(weeks: seq<int>, table: int -> Result<seq<Row>>): Result<seq<seq<Row>>>
  {
    if weeks == [] then Ok([])
    else match table(weeks[0])
      case Err(e) => Err(e)
      case Ok(t) =>
        match WeekTables(weeks[1..], table)
        case Err(e) => Err(e)
        case Ok(rest) => Ok([t] + rest)
  }

  /** Every week of weeks has a table. */
  predicate AllWeeksTabulate(weeks: seq<int>, table: int -> Result<seq<Row>>)
  {
    forall k :: 0 <= k < |weeks| ==> table(weeks[k]).Ok?
  }

  /**
   * The tables exist exactly when every week tabulates, and then come one per week in
   * order; otherwise the error is that of the first week that fails.
   */
  lemma {:induction false} WeekTablesSpec(weeks: seq<int>, table: int -> Result<seq<Row>>)
    ensures WeekTables(weeks, table).Ok? <==> AllWeeksTabulate(weeks, table)
    ensures WeekTables(weeks, table).Ok? ==>
      |WeekTables(weeks, table).value| == |weeks| &&
      forall k :: 0 <= k < |weeks| ==> WeekTables(weeks, table).value[k] == table(weeks[k]).value
    ensures WeekTables(weeks, table).Err? ==>
      exists k :: 0 <= k < |weeks| && table(weeks[k]).Err?
        && WeekTables(weeks, table).error == table(weeks[k]).error
        && forall j :: 0 <= j < k ==> table(weeks[j]).Ok?
  {
    if weeks != [] && table(weeks[0]).Ok? {
      var tail := weeks[1..];
      WeekTablesSpec(tail, table);
      assert forall k :: 1 <= k < |weeks| ==> weeks[k] == tail[k - 1];
      if WeekTables(tail, table).Err? {
        var k :| 0 <= k < |tail| && table(tail[k]).Err?
          && WeekTables(tail, table).error == table(tail[k]).error
          && forall j :: 0 <= j < k ==> table(tail[j]).Ok?;
        assert table(weeks[k + 1]).Err?;
      }
    }
  }

  /** All tables have as many rows as the first. */
  predicate Rectangular(tables: seq<seq<Row>>)
  {
    forall k :: 0 <= k < |tables| ==> |tables[k]| == |tables[0]|
  }

  /** The tables of all weeks that tabulate have as many rows as the first week's. */
  predicate SameSizes(weeks: seq<int>, table: int -> Result<seq<Row>>)
    requires |weeks| > 0
  {
    forall k :: 0 <= k < |weeks| && table(weeks[k]).Ok? && table(weeks[0]).Ok? ==>
      |table(weeks[k]).value| == |table(weeks[0]).value|
  }

  /** np.stack: fails on no tables and on tables of different sizes. */
  function Stack(tables: seq<seq<Row>>): (r: Result<seq<seq<Row>>>)
    ensures r.Ok? <==> |tables| > 0 && Rectangular(tables)
    ensures r.Ok? ==> r.value == tables
    ensures |tables| == 0 ==> r == Err(NoWeeks)
    ensures |tables| > 0 && !Rectangular(tables) ==> r == Err(RaggedWeeks)
  {
    if |tables| == 0 then Err(NoWeeks)
    else if Rectangular(tables) then Ok(tables)
    else Err(RaggedWeeks)
  }

  /** The stacked tables of the given weeks. */
  function StackedTables(weeks: seq<int>, table: int -> Result<seq<Row>>): Result<seq<seq<Row>>>
  {
    match WeekTables(weeks, table)
    case Err(e) => Err(e)
    case Ok(tables) => Stack(tables)
  }

  /** historical_results: the stacked tables of the weeks before the cutoff week. */
  function HistoricalResults(settings: LeagueSettings, fetch: int -> seq<MatchupRecord>): Result<seq<seq<Row>>>
  {
    StackedTables(SeasonWeeks(LatestRegSeasonWeek(settings)), Tabulator(fetch))
  }

  /**
   * Stacking succeeds exactly when there is a week, every week tabulates and all tables
   * have the same size; then table k is that of weeks[k]. A week that fails reports
   * its own error before any stacking error.
   */
  lemma StackedTablesSpec(weeks: seq<int>, table: int -> Result<seq<Row>>)
    ensures StackedTables(weeks, table).Ok? <==>
      |weeks| > 0 && AllWeeksTabulate(weeks, table) && SameSizes(weeks, table)
    ensures StackedTables(weeks, table).Ok? ==>
      var hist := StackedTables(weeks, table).value;
      |hist| == |weeks| && Rectangular(hist) &&
      forall k :: 0 <= k < |hist| ==> table(weeks[k]).Ok? && hist[k] == table(weeks[k]).value
    ensures !AllWeeksTabulate(weeks, table) ==> StackedTables(weeks, table) == WeekTables(weeks, table)
    ensures |weeks| == 0 ==> StackedTables(weeks, table) == Err(NoWeeks)
  {
    WeekTablesSpec(weeks, table);
  }

  /**
   * The season history has one table per week of the window, at least one, all of
   * the same size; with the cutoff at week 1 or earlier there is no history.
   */
  lemma HistoricalResultsShape(settings: LeagueSettings, fetch: int -> seq<MatchupRecord>)
    ensures LatestRegSeasonWeek(settings) <= 1 ==> HistoricalResults(settings, fetch) == Err(NoWeeks)
    ensures HistoricalResults(settings, fetch).Ok? ==>
      var hist := HistoricalResults(settings, fetch).value;
      |hist| == LatestRegSeasonWeek(settings) - 1 >= 1 && Rectangular(hist)
  {
    StackedTablesSpec(SeasonWeeks(LatestRegSeasonWeek(settings)), Tabulator(fetch));
  }

  /** Entry k of the season history is the table of week k+1. */
  lemma HistoryWeek(settings: LeagueSettings, fetch: int -> seq<MatchupRecord>, k: nat)
    requires HistoricalResults(settings, fetch).Ok? && k < |HistoricalResults(settings, fetch).value|
    ensures WeekArray(fetch(k + 1)).Ok?
    ensures HistoricalResults(settings, fetch).value[k] == WeekArray(fetch(k + 1)).value
  {
    var weeks := SeasonWeeks(LatestRegSeasonWeek(settings));
    var table := Tabulator(fetch);
    StackedTablesSpec(weeks, table);
    assert weeks[k] == k + 1;
    assert table(weeks[k]) == WeekArray(fetch(k + 1));
  }

  /** Every week's table in a season history has one row per performance, at least two. */
  lemma HistoryWeeksAreTables(settings: LeagueSettings, fetch: int -> seq<MatchupRecord>, k: nat)
    requires HistoricalResults(settings, fetch).Ok? && k < |HistoricalResults(settings, fetch).value|
    ensures |HistoricalResults(settings, fetch).value[k]| == |fetch(k + 1)| >= 2
  {
    HistoryWeek(settings, fetch, k);
    WeekArrayShape(fetch(k + 1));
  }

  /** Over the window of weeks before the cutoff, the stacking conditions read week by week. */
  lemma WindowConditions(cutoff: int, table: int -> Result<seq<Row>>)
    requires cutoff >= 2
    ensures SeasonWeeks(cutoff)[0] == 1
    ensures AllWeeksTabulate(SeasonWeeks(cutoff), table) <==> forall w :: 1 <= w < cutoff ==> table(w).Ok?
    ensures SameSizes(SeasonWeeks(cutoff), table) <==>
      forall w :: 1 <= w < cutoff && table(w).Ok? && table(1).Ok? ==> |table(w).value| == |table(1).value|
  {
    var weeks := SeasonWeeks(cutoff);
    if AllWeeksTabulate(weeks, table) {
      forall w | 1 <= w < cutoff ensures table(w).Ok? {
        assert weeks[w - 1] == w;
      }
    }
    if SameSizes(weeks, table) {
      forall w | 1 <= w < cutoff && table(w).Ok? && table(1).Ok? ensures |table(w).value| == |table(1).value| {
        assert weeks[w - 1] == w;
      }
    }
  }

  /** A week's table has one row per fetched performance. */
  lemma TabulatorSize(fetch: int -> seq<MatchupRecord>, w: int)
    requires Tabulator(fetch)(w).Ok?
    ensures |Tabulator(fetch)(w).value| == |fetch(w)|
  {
    WeekArrayShape(fetch(w));
  }

  /** Stacking succeeds on the window exactly when its weeks tabulate to tables of one size. */
  lemma StackedWindowSucceeds(cutoff: int, table: int -> Result<seq<Row>>, size: int -> int)
    requires forall w :: table(w).Ok? ==> |table(w).value| == size(w)
    ensures StackedTables(SeasonWeeks(cutoff), table).Ok? <==>
      cutoff >= 2
      && (forall w :: 1 <= w < cutoff ==> table(w).Ok?)
      && (forall w :: 1 <= w < cutoff ==> size(w) == size(1))
  {
    StackedTablesSpec(SeasonWeeks(cutoff), table);
    if cutoff >= 2 {
      WindowConditions(cutoff, table);
    }
  }

  /**
   * The season history exists exactly when the window holds a week, every week of the
   * window has a table, and all those weeks have the same number of performances.
   */
  lemma HistoricalResultsSucceeds(settings: LeagueSettings, fetch: int -> seq<MatchupRecord>)
    ensures HistoricalResults(settings, fetch).Ok? <==>
      LatestRegSeasonWeek(settings) >= 2
      && (forall w :: 1 <= w < LatestRegSeasonWeek(settings) ==> Tabulator(fetch)(w).Ok?)
      && (forall w :: 1 <= w < LatestRegSeasonWeek(settings) ==> |fetch(w)| == |fetch(1)|)
  {
    var table := Tabulator(fetch);
    forall w | table(w).Ok? ensures |table(w).value| == |fetch(w)| {
      TabulatorSize(fetch, w);
    }
    StackedWindowSucceeds(LatestRegSeasonWeek(settings), table, w => |fetch(w)|);
  }

  /** Every week of a season history hands out half a win per team in expected wins. */
  lemma HistoryWeekExpectedSum(settings: LeagueSettings, fetch: int -> seq<MatchupRecord>, k: nat)
    requires HistoricalResults(settings, fetch).Ok? && k < |HistoricalResults(settings, fetch).value|
    ensures SumBy(HistoricalResults(settings, fetch).value[k], ExpectedWinOf)
         == |HistoricalResults(settings, fetch).value[k]| as real / 2.0
  {
    HistoryWeek(settings, fetch, k);
    WeekArrayShape(fetch(k + 1));
    WeekExpectedWinsSum(fetch(k + 1));
  }
}
