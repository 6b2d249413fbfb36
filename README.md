# sleeperapi luck analytics, modelled in Dafny

This project models the luck-analytics engine of the `League` class of the
sleeperapi client (`league.py`). The engine turns a fantasy-football league's
weekly matchup data into a power ranking in four steps:

- **Pairing and natural win** (`Performance`). Each performance of a week is
  paired with its opponent: the first entry of the week's data with the same
  `matchup_id` and a different `roster_id`. Its natural win is 1, 0 or 0.5 for
  a win, a loss or a tie on points.
- **Week table** (`WeekResults.array`). Every week becomes rows of
  `(roster_id, points, natural_win, expected_win)`, ordered by roster id. The
  all-play expected win is `argsort(argsort(points)) / (n - 1)`: a team's
  ordinal rank by points, divided by the number of other teams.
- **Season window** (`latest_reg_season_week`, `historical_results`). The
  cutoff week is `min(playoff_week_start, leg)`. The tables of weeks
  `1 .. cutoff-1` are stacked.
- **Roster join and power ranking** (`roster_map`, `power_rankings`).
  - Rosters are joined to their first owning league member. The team name
    falls back to the display name.
  - Expected and natural wins are summed per table column over the season,
    and `luckstat = natural - expected`.
  - The totals are inner-joined with the roster map on the roster id. The id
    is dropped, and the rows are sorted by expected wins, most first.

Modules, one file each:

- `outcomes.dfy`: `Option`, `Result` and the error cases.
- `sums.dfy`: sums over sequences and multiset facts.
- `sorting.dfy`: `np.argsort` and ordinal ranks.
- `pairing.dfy`: opponent and natural win.
- `week_results.dfy`: the week table.
- `season.dfy`: the window and the stacked history.
- `rosters.dfy`: `roster_map`, an imperative method proved equal to a
  recursive specification.
- `rankings.dfy`: `power_rankings`.

Points and expected wins are `real`. Fetching a week's matchups is a
parameter `fetch: int -> seq<MatchupRecord>`.

Where the Python code raises, the model returns an `Err`:

| source failure | `Err` |
|---|---|
| `[0]` on an empty opponent list | `NoOpponent(rosterId)` |
| indexing the empty array of an empty week | `EmptyWeek` |
| `np.stack` of no tables | `NoWeeks` |
| `np.stack` of tables of different sizes | `RaggedWeeks` |
| `pd.merge` on `roster_id` when no member owns a roster (the roster map has no columns) | `NoRosterMeta` |

A one-team week reports `NoOpponent`. The opponent lookup fails before the
division by `n - 1` is reached.

Tie-breaking follows the code. `argsort(argsort(points))` gives ordinal
ranks: tied scores get distinct consecutive ranks in sort order, not a shared
minimum rank. `WeekResults.TiedMiddleScoresSplit` shows this on four teams
scoring a > b = c > d: the tied teams get 1/3 and 2/3.

numpy's default argsort and pandas' `sort_values` are not stable, so the
source leaves the order among ties unspecified. The model fixes one stable
rule:
- argsort puts equal keys in index order (`Sorting.Precedes`);
- the final ranking puts rows with equal expected wins in join order.

## Model

| member | source | states |
|---|---|---|
| Pairing.Opponent | league.py:188-190 | Some(q) only for the first entry q of the week in the same matchup with another roster; None exactly when no entry qualifies (the failing `[0]`) |
| Pairing.NaturalWin | league.py:200-209 | 1 exactly when more points, 0 exactly when fewer, 0.5 exactly when equal |
| Pairing.NaturalWinOf | league.py:196-209 | a performance has a natural win exactly when it has an opponent, and it is the comparison of its points with the opponent's |
| Pairing.NaturalWinsComplement | league.py:200-209 | the two sides' natural wins add up to 1, each in [0, 1] |
| Pairing.PairedNaturalWins | league.py:188-209 | two performances that are each other's opponent have natural wins summing to 1 |
| Pairing.LoneEntryHasNoOpponent | league.py:189-190 | an entry alone in its week has no opponent |
| Pairing.OnlyOpponent | league.py:189-190 | the single entry playing against p is p's opponent |
| Pairing.PartnerIsOnlyOpponent | league.py:189-190 | in a well-formed week the other entry of a matchup is the opponent |
| Pairing.OpponentSymmetric | league.py:188-194 | in a well-formed week every entry has an opponent whose opponent is the entry |
| WeekResults.RawEntriesSpec | league.py:146-155 | the raw array exists exactly when every performance has an opponent; row k is performance k's roster, points and natural win; otherwise the error names the first unpaired performance |
| WeekResults.LoneWeekUnpaired | league.py:155 | a one-entry week fails with NoOpponent for that entry |
| WeekResults.RawEntriesSize | league.py:155-156 | a successful raw array has one row per performance, never exactly one |
| WeekResults.ByRosterPermutes | league.py:159-160 | reordering by roster id keeps every raw row |
| WeekResults.ByRosterSorted | league.py:159-160 | reordered rows ascend by roster id |
| WeekResults.WithExpectedKeepsEntries | league.py:164 | appending the expected-win column leaves roster, points and natural win unchanged |
| WeekResults.ExpectedWinCountsBeaten | league.py:163 | a row's expected win is the share of the other rows that sort before it |
| WeekResults.ExpectedWinBounds | league.py:163 | every expected win lies in [0, 1] |
| WeekResults.ExpectedWinOrder | league.py:163 | one expected win is below another exactly when it has fewer points, or equal points at an earlier row |
| WeekResults.MorePointsMoreExpected | league.py:163 | strictly more points gives a strictly larger expected win |
| WeekResults.TiesBrokenByPosition | league.py:159-163 | equal points get distinct expected wins, the earlier row the smaller |
| WeekResults.FirstPlaceGetsZero | league.py:163 | the row first in points order gets 0 |
| WeekResults.LastPlaceGetsOne | league.py:163 | the row last in points order gets 1 |
| WeekResults.UniqueLowestGetsZero | league.py:163 | a row with fewer points than every other row gets 0 |
| WeekResults.UniqueHighestGetsOne | league.py:163 | a row with more points than every other row gets 1 |
| WeekResults.ExpectedWinsSum | league.py:163 | the expected wins of a week sum to n/2 |
| WeekResults.WeekArrayOutcome | league.py:153-166 | the table exists exactly when the week is non-empty and fully paired; an empty week gives EmptyWeek, a one-entry week NoOpponent, otherwise the first unpaired entry is reported |
| WeekResults.WeekArrayShape | league.py:154-166 | a table has one row per performance, at least two, each its first three columns plus the expected win |
| WeekResults.RawEntriesArePairedRows | league.py:146-155 | a successful raw array is every performance with its natural win, in data order |
| WeekResults.WeekArrayPermutes | league.py:155-164 | the table's first three columns are the week's performances, reordered |
| WeekResults.WeekArrayRowsComeFromWeek | league.py:155-164 | each table row is some performance of the week with its natural win |
| WeekResults.WeekArraySortedByRoster | league.py:158-160 | table rows ascend by roster id |
| WeekResults.WeekExpectedWinsSum | league.py:163-164 | a table's expected wins sum to half the number of teams |
| WeekResults.WeekPairsUp | league.py:188-209 | a well-formed week pairs its entries with their opponents, each pair sharing one natural win |
| WeekResults.WellFormedNaturalWinsSum | league.py:200-209 | in a well-formed week the natural wins sum to n/2 |
| WeekResults.WeekNaturalWinsSum | league.py:155-160 | the natural-win column of a well-formed week's table sums to half the number of teams |
| WeekResults.TiedMiddleOrder | league.py:159 | argsort of scores a > b = c > d is [3, 1, 2, 0] |
| WeekResults.TiedMiddleScoresSplit | league.py:163 | for scores a > b = c > d the tied teams get 1/3 and 2/3, not a shared value |
| Sorting.ArgSort | league.py:159 | argsort returns a permutation of the indices |
| Sorting.ArgSortSorted | league.py:159 | argsort lists smaller keys first, equal keys by index |
| Sorting.GatherArgSort | league.py:160 | reading rows in argsort order keeps exactly the rows |
| Sorting.RanksInvertOrder | league.py:163 | argsort(argsort(x)) is a permutation of 0..n-1 inverse to the sort order |
| Sorting.RanksOrder | league.py:163 | rank i is below rank j exactly when i sorts before j |
| Sorting.RankCountsPreceding | league.py:163 | a rank is the number of entries that sort before it |
| Season.LatestRegSeasonWeek | league.py:131-133 | the cutoff is the smaller of playoff_week_start and leg |
| Season.SeasonWeeks | league.py:110 | the weeks are 1 .. cutoff-1, position k holding week k+1 |
| Season.SeasonWeeksWindow | league.py:110 | a week is in the window exactly when 1 <= w < cutoff; weeks ascend |
| Season.WeekTablesSpec | league.py:110 | the tables exist exactly when every week tabulates, one per week in order; otherwise the first failing week's error |
| Season.Stack | league.py:110 | stacking succeeds exactly on a non-empty list of equal-size tables; NoWeeks and RaggedWeeks otherwise |
| Season.StackedTablesSpec | league.py:110 | stacking the window's tables succeeds exactly when there is a week, all weeks tabulate and all tables have one size |
| Season.HistoricalResultsShape | league.py:107-110 | the history has cutoff-1 >= 1 tables of one size; a cutoff of 1 or less gives NoWeeks |
| Season.HistoryWeek | league.py:110 | history entry k is the table of week k+1 |
| Season.HistoryWeeksAreTables | league.py:110 | each history table has one row per performance of its week, at least two |
| Season.StackedWindowSucceeds | league.py:110 | stacking the window succeeds exactly when the cutoff exceeds 1, each week tabulates and all weeks have week 1's size |
| Season.HistoricalResultsSucceeds | league.py:107-110 | the history exists exactly when cutoff >= 2, every week of the window tabulates and every week has as many performances as week 1 |
| Season.HistoryWeekExpectedSum | league.py:110 | each week of the history hands out n/2 expected wins |
| Rosters.FindOwner | league.py:96-97 | None exactly when no member owns the roster; otherwise the first owning member |
| Rosters.TeamName | league.py:98 | the metadata team name if present, else the display name |
| Rosters.RosterMap | league.py:88-105 | the nested loop with break produces exactly the recursive roster map |
| Rosters.FirstOwnerRow | league.py:96-102 | the first owning member gives the roster's single row |
| Rosters.RosterMapAppend | league.py:91-102 | the map of two runs of rosters is the concatenation of their maps |
| Rosters.RosterMapSplit | league.py:91-102 | rows keep roster order: those before roster i, its own, those after |
| Rosters.RosterMapRows | league.py:93-101 | every row is some roster's id and wins with its first owner's team name |
| Rosters.RosterMapComplete | league.py:96-102 | every roster with an owner has its row |
| Rosters.OwnerlessRosterOmitted | league.py:96-102 | a roster without an owner contributes no row |
| Rosters.RosterMapEmpty | league.py:91-104 | the roster map is empty exactly when no roster has an owner among the members |
| Rankings.SeasonTotalOfRoster | league.py:115-117 | when every week holds week 1's distinct roster ids column by column, column j's total is its roster's own season: the sums of the expected and natural wins of that roster's row in each week |
| Rankings.SeasonLuckIsWeeklyLuck | league.py:127 | season luck is the sum of the weekly luck |
| Rankings.JoinOneMembers | league.py:122-125 | a roster-map row joins exactly the totals with its roster id |
| Rankings.InnerJoinMembers | league.py:122-125 | a row is in the join exactly when it combines a roster-map row and a total with the same roster id |
| Rankings.InnerJoinLuck | league.py:127 | every joined row's luckstat is natural minus expected wins |
| Rankings.InsertByExpectedPermutes | league.py:129 | inserting adds exactly the one row |
| Rankings.InsertByExpectedDescending | league.py:129 | inserting into a descending list keeps it descending |
| Rankings.SortByExpectedPermutes | league.py:129 | sorting keeps every row |
| Rankings.SortByExpectedDescending | league.py:129 | sorted rows have non-increasing expected wins |
| Rankings.PowerRankingsDescending | league.py:129 | the ranking is in descending order of expected wins |
| Rankings.PowerRankingsRows | league.py:115-129 | a row is in the ranking exactly when it is a roster's team name and wins with a column's season sums and their difference, roster ids matching |
| Rankings.PowerRankingsPermutes | league.py:122-129 | the ranking holds the joined rows, each as often as the join produces it |
| Rankings.LeaguePowerRankingsSpec | league.py:104-129 | the league ranking exists exactly when the history does and the roster map has a row; a history error is propagated first, an empty roster map gives NoRosterMeta; a ranking is descending |
| Rankings.NoMembersNoRanking | league.py:104-125 | with no members the merge has no roster_id column and the ranking fails with NoRosterMeta |
| Rankings.SwapSums | league.py:116 | summing the column totals equals summing each week's expected wins |
| Rankings.SeasonExpectedTotal | league.py:116 | with n/2 expected wins per week, the season totals sum to weeks times n/2 |
| Rankings.LeagueExpectedWinsTotal | league.py:110-116 | a league's season expected wins sum to half a win per team per week |

## Left out

- HTTP access (`_get` and the endpoints of `members`, `rosters`, `league_data`, `get_week_results`) is network I/O; the fetched records are inputs.
- `cached_property` memoisation is caching only; each property is a function of its inputs.
- IEEE floating point is not modelled: points and fractions are exact reals, and a `None` or NaN score cannot occur (a `None` score makes the comparison raise `TypeError`; a NaN score fails all three comparisons and leaves `natural_wins` unbound, an `UnboundLocalError`).
- numpy and pandas containers (`np.stack`, `hstack`, `reshape`, `DataFrame`, `merge`, `drop`, `reset_index`) are replaced by sequences of records.
- The unstable sorts of numpy's argsort and pandas' `sort_values` are replaced by one stable order.
- `league_name`, `league_settings`, `league_average_match`, `__repr__`, the `Roster` and `Matchup` holders and the unused `starters`, `starters_points` and `players_points` fields carry no analytics.
- Rosters.TeamName: a `team_name` key present with the value `None`, and a member without `metadata`, are not modelled; a member's team name is either present as text or absent.
- Missing keys in the fetched records (`KeyError`) are not modelled; every record carries its fields.
- A cumulative per-week luck series is not computed by the code and is not modelled.
- Rankings.SeasonTotals: columns are matched by position across weeks, as the source does; the model does not check that every week holds the same roster ids. `Rankings.SeasonTotalOfRoster` states what a column means when they do.
