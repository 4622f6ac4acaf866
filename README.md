# Olympic medals dashboard: the medal aggregation layer

This project models the data layer of a Taipy dashboard of Olympic medals, in
Dafny. Every chart and card of the dashboard is computed from one of these
tables:

- the flat table of medal records. Each record has an Olympiad, a year, a
  season, a committee, a discipline, an event, a gender and a medal type;
- three pre-aggregated "wide" tables:
  - committee x olympiad, holding Gold, Silver, Bronze and Total. The rows
    labelled "All" hold each committee's all-time medals;
  - year x olympiad, one table per season and medal type, with a
    `Total_medals` column and one column per committee;
  - host cities, with their four `total_medals*` columns.

The model covers the filtering, grouping, counting, pivoting and percentage
conversion done on these tables. It covers:

- the season and Olympiad selectors, and their "All" bypass;
- the zero-filled committee time series and its "Percentage" mode;
- the committee x discipline grid, whose discipline columns are fixed per
  season before the committee is chosen;
- the choropleth's column selection, which raises a ValueError on a bad
  selector, followed by a group-by-sum;
- the medal-card lookups, which raise an IndexError when the committee is
  absent;
- the per-olympiad medal count table, sorted by year and then Bronze, Silver,
  Gold.

A data frame is a sequence of typed rows, and the index of a row is its
position in the sequence. A `reset_index` that renumbers rows is therefore the
identity. A `copy()` is a value. Most of the source's classes store a copy of
their input once, in `__init__`. Their methods are therefore functions of that
stored table, and the stored table cannot be modified by them.

Code that changes state step by step is modelled imperatively:

- the in-place Stockholm relabel (`CommitteePlots.RelabelStockholm`);
- the in-place `Medal_type_code` column (`AllTimeMedals.AddMedalTypeCode`);
- the percentage loops (`Percentages.ComputePercentage`);
- the Taipy state written by the callbacks (`Callbacks.DashboardState`).

The ordering pandas uses is modelled as follows:

- `groupby` and `pivot_table` sort their keys. The model uses
  `Tables.SortedDistinct` with a comparator, and Python's string order is
  `Tables.StrLe`.
- `unique()` keeps the order of first appearance (`Tables.Distinct`).
- `sort_values` is a stable sort that places missing values last
  (`Tables.SortBy` with `AllTimeMedals.CodeLe`).

Modules, one file each:

- `Tables`: generic table operations;
- `Medals`: the data model;
- `Percentages`;
- `DisciplineGrids`;
- `CommitteePlots`;
- `MedalsByCountry`;
- `OlympicMap`;
- `MedalsByOlympics`;
- `MedalsBySeason`;
- `PlottingAllTime`;
- `Sunburst`;
- `MedalDetails`;
- `Callbacks`;
- `AllTimeMedals`.

## Model

| member | source | states |
|---|---|---|
| Medals.SelectUnlessAll | src/algorithms/create_medals_by_season.py:59-64 | "All" returns the table itself. Any other value keeps exactly the rows whose column equals it, with their multiplicities, in their original relative order. |
| Medals.SortedKeys | src/algorithms/plotting_medals_by_committee.py:49-55 | The pivot index lists each (year, Olympiad) pair of the rows exactly once, ordered by year and then by label. |
| Medals.SortedKeysUnique | src/algorithms/plotting_medals_by_committee.py:49-55 | Two duplicate-free key lists sorted by (year, label) with the same members are equal, so the pivot index is determined by its key set. |
| Tables.Filter | src/algorithms/create_medals_by_olympics.py:95 | A boolean-mask selection keeps exactly the rows of the mask, with their multiplicities, in order. Its length is the number of true mask entries. |
| Tables.Distinct | src/algorithms/create_medals_by_season.py:25 | `unique()` returns every value of the column, each exactly once. |
| Tables.DistinctKeepsFirstAppearanceOrder | src/algorithms/create_medals_by_season.py:25 | `unique()` lists the values in the order of their first occurrence. |
| Tables.SortBy | src/pages/all_time_medals.py:53-55 | `sort_values` returns a permutation of its input that is sorted by the comparator. |
| Tables.SortByKeepsTies | src/pages/all_time_medals.py:53-55 | The sort is stable: the rows tied with any given row come out in the order they went in. |
| Tables.FirstIndex | src/algorithms/medal_details.py:3-5 | `.iloc[0]` of a selection reads the first matching row. The index equals the length when no row matches. |
| Percentages.Percent | src/algorithms/plotting_medals_by_committee.py:66-68 | value * 100 / total when the total is nonzero. 0 when the total is 0, which is the `fillna(0)` of 0/0. |
| Percentages.ConvertColumn | src/algorithms/plotting_medals_by_committee.py:66-68 | One loop iteration replaces column c of every row by its percentage of that row's total. Every other column is unchanged. |
| Percentages.ConvertColumns | src/algorithms/plotting_medals_by_committee.py:65-68 | After the loop, rows keep their year, label and column set. Listed columns are 0 where the total is 0, and unlisted columns are untouched. |
| Percentages.ComputePercentage | src/algorithms/create_medals_by_country.py:46-50 | The loop over the committee list produces exactly the column-by-column conversion, in list order. |
| Percentages.ConvertColumnsValues | src/algorithms/create_medals_by_country.py:46-49 | With each committee listed once, every listed cell becomes the percentage of its original value. |
| Percentages.SumOver | src/algorithms/plotting_medals_by_committee.py:57-61 | A row sum over committee columns with non-negative values is non-negative. |
| Percentages.ZeroSumMeansZeroValues | src/algorithms/plotting_medals_by_committee.py:57-61 | Non-negative counts whose row total is 0 are all 0, so the conversion meets only 0/0. |
| Percentages.SumOfPercents | src/algorithms/plotting_medals_by_committee.py:65-68 | Scaling every listed value by 100 / total scales their sum by the same factor. |
| Percentages.PercentsAddUpTo100 | src/algorithms/plotting_medals_by_committee.py:63-68 | When a row's total is the positive sum of its listed values, its percentages add up to exactly 100. |
| DisciplineGrids.FilterOlympicSeason | src/algorithms/create_medal_by_olympic_and_discipline.py:39-40 | Exactly the records of the season, with their multiplicities, in order. |
| DisciplineGrids.Disciplines | src/algorithms/create_medal_by_olympic_and_discipline.py:28-29 | The disciplines occurring in the rows, each exactly once. |
| DisciplineGrids.DisciplinesInFirstAppearanceOrder | src/algorithms/create_medal_by_olympic_and_discipline.py:28-29 | The discipline list is in order of first appearance. |
| DisciplineGrids.PivotOlympicByDiscipline | src/algorithms/create_medal_by_olympic_and_discipline.py:60-67 | The pivot has one row per (Olympiad, year) of the rows, sorted by year (`sort_index(level=1)`) and then by label. Its columns are exactly the disciplines present. |
| DisciplineGrids.ReindexColumns | src/algorithms/create_medal_by_olympic_and_discipline.py:83-85 | The columns are exactly the given list, in order. Each cell is the pivot's value, or 0 when the pivot lacks that column. Row keys are kept. |
| DisciplineGrids.CreateMedalsGrid | src/algorithms/create_medal_by_olympic_and_discipline.py:69-85 | The grid's columns are the season's discipline list, whatever the committee. Its rows are the committee's Olympiads, each once, in (year, label) order. |
| DisciplineGrids.GridCellsCountMedals | src/algorithms/create_medal_by_olympic_and_discipline.py:60-85 | Every cell is the number of the season's records with that committee, Olympiad and discipline, and 0 when there are none. |
| DisciplineGrids.OrderedOlympiads | src/algorithms/create_medal_by_olympic_and_discipline.py:90 | The Olympiad axis lists each label of the grid rows exactly once, in the order in which the labels first appear down the rows. |
| DisciplineGrids.OlympiadAxisInYearOrder | src/algorithms/create_medal_by_olympic_and_discipline.py:60-67 | On a grid built by `_create_medals_grid`, the axis runs in year order: an earlier label's first row is never in a later year than a later label's first row. |
| DisciplineGrids.Init | src/algorithms/create_medal_by_olympic_and_discipline.py:25-29 | The summer and winter tables hold exactly the records of their season. Each season's discipline list is that season's distinct disciplines over all committees. |
| DisciplineGrids.PlotMedalsGridSummer | src/algorithms/create_medal_by_olympic_and_discipline.py:88-92 | The summer grid's columns are the stored summer disciplines, for every committee. |
| DisciplineGrids.PlotMedalsGridWinter | src/algorithms/create_medal_by_olympic_and_discipline.py:94-98 | The winter grid's columns are the stored winter disciplines, for every committee. |
| DisciplineGrids.SummerGridCountsRecords | src/algorithms/create_medal_by_olympic_and_discipline.py:32-34 | A summer grid cell counts the committee's summer records of that Olympiad and discipline among all records given to the constructor. |
| CommitteePlots.SeasonMedalFilter | src/algorithms/plotting_medals_by_committee.py:22-24 | The rows of the season, and of the medal type unless that is "All", with their multiplicities. |
| CommitteePlots.RelabelRecord | src/algorithms/plotting_medals_by_committee.py:27-29 | "Stockholm 1956" becomes "Melbourne 1956". Every other label and every other field is unchanged. |
| CommitteePlots.Relabelled | src/algorithms/plotting_medals_by_committee.py:27-29 | Same length. No row is labelled "Stockholm 1956". Each row's label is relabelled and its other fields are kept. |
| CommitteePlots.RelabelStockholm | src/algorithms/plotting_medals_by_committee.py:27-29 | The `.loc` assignment rewrites the array in place into the relabelled table. |
| CommitteePlots.CommitteeCounts | src/algorithms/plotting_medals_by_committee.py:31-55 | With at least one committee listed, there is one row per (year, Olympiad) of the filtered rows, each once, sorted. With none, the cross product is empty and so is the pivot. Every row has a value for every listed committee, including committees without a medal. That value is the group count, 0 when the group is absent. |
| CommitteePlots.RowTotals | src/algorithms/plotting_medals_by_committee.py:57-61 | `Total_medals` of a row is the sum of its values over the committee columns, each counted once. |
| CommitteePlots.CountsConvertible | src/algorithms/plotting_medals_by_committee.py:63-68 | A zero total only ever meets zero counts, so the conversion never divides a nonzero count by 0. |
| CommitteePlots.CommitteeSeries | src/algorithms/plotting_medals_by_committee.py:22-70 | With at least one committee listed, the series has one row per sorted (year, Olympiad) of the prepared rows; with none it is empty. Its columns are exactly the listed committees, as counts or as percentages. |
| CommitteePlots.TotalMedalsByCountry | src/algorithms/plotting_medals_by_committee.py:22-72 | The imperative pipeline computes that series. It filters, relabels in place, counts, and runs the percentage loop only for exactly "Percentage". |
| CommitteePlots.SeriesCountsRecords | src/algorithms/plotting_medals_by_committee.py:38-55 | In count mode, each value is the number of selected raw records with that year, relabelled Olympiad and committee, and 0 when there are none. |
| CommitteePlots.CountsRecordsAt | src/algorithms/plotting_medals_by_committee.py:22-46 | A count over the filtered, relabelled table equals a count over the raw records. |
| CommitteePlots.SumOfCounts | src/algorithms/plotting_medals_by_committee.py:57-61 | Summing the counts of distinct committees counts the rows of any of them. |
| CommitteePlots.RowTotalCountsListedCommittees | src/algorithms/plotting_medals_by_committee.py:57-61 | `Total_medals` of a row is the number of that (year, Olympiad)'s records won by any listed committee. |
| CommitteePlots.SeriesPercentagesAddUpTo100 | src/algorithms/plotting_medals_by_committee.py:63-70 | In "Percentage" mode with each committee listed once, a row's values add up to 100 when its total is positive. They are all 0 when the total is 0. |
| CommitteePlots.MedalsGrid | src/algorithms/plotting_medals_by_committee.py:106-126 | The grid's columns are the season's disciplines, taken before the committee filter and each listed once. |
| CommitteePlots.MedalsGridMatchesSeasonGrids | src/algorithms/plotting_medals_by_committee.py:106-126 | For summer and for winter, the module function gives the same grid and Olympiad axis as `MedalsByOlympicAndDiscipline`. |
| MedalsByCountry.Init | src/algorithms/create_medals_by_country.py:22-28 | The object holds its own copy of the table. |
| MedalsByCountry.MissingColumns | src/algorithms/create_medals_by_country.py:39-40 | The labels of the KeyError: the listed committees that are not columns, each once. |
| MedalsByCountry.Project | src/algorithms/create_medals_by_country.py:39-40 | The column selection keeps exactly the listed committee columns. |
| MedalsByCountry.FilterDataset | src/algorithms/create_medals_by_country.py:30-40 | A listed committee that is not a column raises KeyError, and only then. Otherwise the columns are Olympic_year, Olympiad, Total_medals and then the list in order, with one total per row. |
| MedalsByCountry.FilterDatasetRows | src/algorithms/create_medals_by_country.py:34-40 | The rows are exactly the stored rows whose season and medal type are both matched literally ("All" is not a bypass), in order. Each row carries its year, label, total and committee values. |
| MedalsByCountry.DropTotalMedals | src/algorithms/create_medals_by_country.py:63 | Dropping the column removes `Total_medals` and keeps every other column. |
| MedalsByCountry.DropTotalMedalsFromPlotColumns | src/algorithms/create_medals_by_country.py:63 | After the drop, the columns are Olympic_year, Olympiad and the committee list. |
| MedalsByCountry.MedalsByCommittee | src/algorithms/create_medals_by_country.py:52-63 | It fails exactly when a listed committee is missing. The result never has a `Total_medals` column. |
| MedalsByCountry.FilteredFrameConvertible | src/algorithms/create_medals_by_country.py:46-49 | When a nonzero value never meets a zero `Total_medals`, every listed column can be converted. |
| MedalsByCountry.ComputeMedalsByCommittee | src/algorithms/create_medals_by_country.py:52-63 | The method filters, runs the percentage loop for exactly "Percentage", and drops the column. Its result is that function's result. |
| MedalsByCountry.PlotColumns | src/algorithms/create_medals_by_country.py:39-63 | The returned columns are Olympic_year, Olympiad and the committees, in list order. |
| MedalsByCountry.PlotCounts | src/algorithms/create_medals_by_country.py:60-63 | For any value other than "Percentage", the values are the stored ones. |
| MedalsByCountry.PlotPercentages | src/algorithms/create_medals_by_country.py:46-49 | Each value is the stored value scaled by 100 / the stored `Total_medals`, not by the sum over the listed committees. It is 0 where that total is 0. |
| MedalsByCountry.CreateMedalsByCountrySummer | src/algorithms/create_medals_by_country.py:122-134 | The computation with the season fixed to "summer". |
| MedalsByCountry.CreateMedalsByCountryWinter | src/algorithms/create_medals_by_country.py:136-148 | The computation with the season fixed to "winter". |
| OlympicMap.SelectMedalColumn | src/algorithms/create_olympic_map.py:26-48 | All, Gold, Silver and Bronze select total_medals, total_medals_gold, total_medals_silver and total_medals_bronze. Every other value raises ValueError. |
| OlympicMap.SelectMedalColumnIsBijective | src/algorithms/create_olympic_map.py:37-42 | Selector values and columns correspond one to one. |
| OlympicMap.SeasonRows | src/algorithms/create_olympic_map.py:53-56 | "All" keeps every row. Any other season keeps exactly its own rows, each as often as in the table, in order. |
| OlympicMap.ComputeMedalCounts | src/algorithms/create_olympic_map.py:50-64 | ValueError exactly for a bad selector. Otherwise there is one row per (Country, ISO code) of the season's rows, each once, in sorted order. Its "Number of Medals" is the selected column summed over that group. |
| OlympicMap.GenerateMedalCounts | src/algorithms/create_olympic_map.py:66-83 | The computed table, or the empty table when the computation raises. |
| OlympicMap.SumOfGroupRows | src/algorithms/create_olympic_map.py:57-63 | The per-group rows add up to the group sums of their keys. |
| OlympicMap.MedalCountsConserveTotal | src/algorithms/create_olympic_map.py:57-63 | The "Number of Medals" of all countries add up to the selected column summed over the season's rows. |
| MedalsByOlympics.ComputeDataByOlympics | src/algorithms/create_medals_by_olympics.py:94-97 | The rows labelled with the argument, "All" included, without their Olympiad column, in their number. An absent label gives the empty table. |
| MedalsByOlympics.RestoringOlympiadGivesSelectedRows | src/algorithms/create_medals_by_olympics.py:95-96 | Putting the label back gives exactly the selected stored rows, so every other column is unchanged. |
| MedalsBySeason.ComputeMedalsBySeason | src/algorithms/create_medals_by_season.py:47-64 | "All" returns the stored table itself. Any other season returns exactly that season's rows, with their multiplicities, in their relative order. |
| MedalsBySeason.OlympiadAxis | src/algorithms/create_medals_by_season.py:24-26 | The category order lists every Olympiad of the rows exactly once. |
| MedalsBySeason.OlympiadAxisInFirstAppearanceOrder | src/algorithms/create_medals_by_season.py:24-26 | The category order is the order of first appearance. |
| MedalsBySeason.PlotBarMedalSeason | src/algorithms/create_medals_by_season.py:11-45 | The chart draws the given rows with that axis. The Stockholm 1956 note is drawn if and only if the season is not "winter", so "All" gets it too. |
| MedalsBySeason.CreateBarMedalSeason | src/algorithms/create_medals_by_season.py:83-94 | The chart of the season's rows. For a season other than "All", every Olympiad on the axis has a stored row of that season. |
| MedalsBySeason.SeasonsSplitTheTable | src/algorithms/create_medals_by_season.py:59-62 | When every row is summer or winter, the two selections together have as many rows as the stored table. |
| PlottingAllTime.CreateBarMedals | src/algorithms/plotting_all_time.py:39-57 | "All" draws the table as given. Any other season draws exactly its rows, in order. The note appears if and only if the season is not "winter". The axis holds each drawn Olympiad once. |
| PlottingAllTime.CreateBarMedalsMatchesMedalsBySeason | src/algorithms/plotting_all_time.py:39-57 | The module function draws the same chart as `MedalsBySeason.create_bar_medal_season` from the same table. |
| Sunburst.MakeInitialSunburst | src/algorithms/create_sunburst.py:38-54 | One row per record, carrying exactly its Olympiad, Gender, Discipline and Event. |
| Sunburst.ComputeSunburstData | src/algorithms/create_sunburst.py:56-76 | "All" returns the prepared table itself. Any other selection returns exactly that Olympiad's rows, each as often as in the table, in order, never more rows than the table. |
| Sunburst.SunburstCountsMedals | src/algorithms/create_sunburst.py:69-76 | The sunburst of an Olympiad has one row per medal record of that Olympiad. For "All" it has one row per record. |
| MedalDetails.GetMedalCount | src/algorithms/medal_details.py:1-6 | The column of the first row naming the committee. IndexError if and only if no row names it. |
| MedalDetails.CreateMedalsDetail | src/algorithms/medal_details.py:9-25 | (Total, Gold, Silver, Bronze) of the committee's first row, over the whole table. IndexError if and only if the committee is absent. |
| MedalDetails.DetailOfOnlyRow | src/algorithms/medal_details.py:20-25 | A committee with a single row gets exactly that row's four counts, in that order. |
| Callbacks.GetMedalCount | src/algorithms/callbacks.py:4-9 | The column of the first row naming the committee. IndexError if and only if no row names it. |
| Callbacks.CreateMedalsDetail | src/algorithms/callbacks.py:12-32 | IndexError if and only if no row labelled "All" names the committee. Otherwise (Total, Gold, Silver, Bronze) is a stored "All" row of that committee. |
| Callbacks.AllTimeLookup | src/algorithms/callbacks.py:24-28 | The lookup succeeds exactly when an "All" row names the committee, and then finds such a row. |
| Callbacks.CreateMedalsDetailSearchesAllTimeRows | src/algorithms/callbacks.py:24-26 | The callback equals the `medal_details` lookup run on the rows labelled "All". The two differ only by that filter. |
| Callbacks.DetailOfFirstAllTimeRow | src/algorithms/callbacks.py:27-32 | The four counts come from the committee's first "All" row. Otherwise the result is an IndexError. |
| Callbacks.CountMedals | src/algorithms/callbacks.py:48-49 | The number of records of the medal type. It is 0 if and only if there are none. |
| Callbacks.TotalMedalsOf | src/algorithms/callbacks.py:52-57 | The total is the number of records, and gold, silver and bronze are the per-type counts. |
| Callbacks.MedalTypesAddUpToTotal | src/algorithms/callbacks.py:52-57 | When every record is Gold, Silver or Bronze, gold + silver + bronze = total. |
| Callbacks.DashboardState.OnSelectorMedalsByCommittee | src/algorithms/callbacks.py:35-45 | The four detail fields get the selected committee's all-time counts. When the lookup raises, no field is written, and the tables and the selection are unchanged. |
| Callbacks.DashboardState.SetDetails | src/algorithms/callbacks.py:40-45 | The tuple assignment writes the four detail fields and nothing else. |
| Callbacks.DashboardState.InitTotalMedals | src/algorithms/callbacks.py:52-57 | The medal totals field gets the counts of the medal records, and no other field changes. |
| AllTimeMedals.MedalOrder | src/pages/all_time_medals.py:39 | Bronze = 0, Silver = 1 and Gold = 2. Any other type has no code (NaN). |
| AllTimeMedals.Keys | src/pages/all_time_medals.py:41-47 | The group keys of the records, each once, in sorted order. |
| AllTimeMedals.GroupCounts | src/pages/all_time_medals.py:41-47 | One row per group key. Medal_count is the number of the group's records. |
| AllTimeMedals.AddMedalTypeCode | src/pages/all_time_medals.py:50-52 | The new column is written into every row in place, and nothing else changes. |
| AllTimeMedals.MedalsByOlympiad | src/pages/all_time_medals.py:41-55 | The coded group rows, permuted so they are sorted by year and then by code, with NaN last. |
| AllTimeMedals.BuildMedalsByOlympiad | src/pages/all_time_medals.py:41-58 | The imperative pipeline (group, add the column in place, sort, reset the index) gives that table. |
| AllTimeMedals.OneRowPerGroup | src/pages/all_time_medals.py:41-52 | The sorted table has one row per distinct (Olympiad, year, medal type, season) of the records. Each row counts its group and carries its medal type's code. |
| AllTimeMedals.SortedKeysOfCodedGroups | src/pages/all_time_medals.py:41-55 | Sorting keeps the group keys: the table's keys are those of the coded group rows, each once. |
| AllTimeMedals.SortedRowsAreCodedGroups | src/pages/all_time_medals.py:41-55 | Every sorted row counts the records of its key and carries its medal type's code. |
| AllTimeMedals.TiesKeepGroupOrder | src/pages/all_time_medals.py:41-55 | Rows with the same year and medal code keep the group-by order (Olympiad label, then season) through the sort. |
| AllTimeMedals.SumOfGroupRows | src/pages/all_time_medals.py:41-47 | The group rows' counts add up to the group sizes of their keys. |
| AllTimeMedals.MedalCountsAddUpToRecords | src/pages/all_time_medals.py:41-47 | Medal_count adds up to the number of records, so no record is lost or counted twice. |
| AllTimeMedals.SummaryCards | src/pages/all_time_medals.py:183-213 | The Gold, Silver and Bronze cards count the records of their type. The total card counts all records. |
| AllTimeMedals.SummaryCardsMatchTotals | src/pages/all_time_medals.py:183-213 | The page's cards show the same four numbers as the totals set by `init_total_medals`. |

## Left out

- Plotly figure construction (`px.bar`, `px.line`, `px.imshow`, `px.choropleth`, `px.sunburst`, layout and traces): only the data drawn, the Olympiad category order and whether the Stockholm 1956 note is added are modelled.
- Titles, labels and color maps: constant display configuration. This includes the default gender color map of the sunburst and the medal color map of the bar charts.
- Taipy pages, selectors, reactive propagation and server start-up (src/main.py, src/pages/medals_by_committee.py, src/pages/medals_by_athlete.py, src/page_utils/builder_extension.py): page layout. The callbacks' writes are modelled as field updates of `Callbacks.DashboardState`.
- File loading (`pd.read_csv`, `yaml_to_list`, text files): I/O. The tables are parameters.
- The `print` diagnostics in the exception handlers: output only. The fallback value is modelled where it is reachable (`OlympicMap.GenerateMedalCounts`).
- `_generate_data_by_olympics` and `_generate_medals_by_season`: with typed rows their computations cannot raise. Each is therefore equal to its compute function (`MedalsByOlympics.ComputeDataByOlympics`, `MedalsBySeason.ComputeMedalsBySeason`), and is not a separate member.
- Floating point: percentages are exact reals. A nonzero count over a zero `Total_medals` would give inf in pandas. That case is a precondition (`MedalsByCountry.FiniteShares`) and is not modelled.
- Integer conversion (`int(...)`), dtypes and `astype(str)`: the rows are typed, so the conversions are identities.
- pandas index mechanics (MultiIndex levels, `observed=True`, `unstack`, `reset_index`): a table is a sequence of typed rows, and an index is a position.
- Medals.WellFormed: committee names are assumed to differ from the fixed column names, and every row has every committee column. A clashing name would select a fixed column in pandas.
- Percentages.ConvertColumnsValues: stated only for a committee list without repeats. In `plot_total_medals_by_country` (`CommitteePlots.CommitteeSeries`), where the pivot holds each committee column once, a committee listed twice is converted twice, which `Percentages.ConvertColumns` models.
- MedalsByCountry.MedalsByCommittee: the "Percentage" result is not modelled for a committee list with repeats. In pandas the selection then holds two same-named columns, and `df[committee]` is a two-column frame whose division by `Total_medals` aligns on labels; the model instead converts its single column of that committee once per listing. The same holds for `MedalsByCountry.ComputeMedalsByCommittee` and the plot functions built on it. For the count representation and for lists without repeats the model is exact.
- Callbacks.TotalMedalsOf: the record type `MedalTotals` is imported from src/algorithms/context.py, which does not define it. Its fields are taken to be (total, gold, silver, bronze), as the keyword arguments of the call suggest.
- The stale imports of src/pages/all_time_medals.py (lines 2-7), and the attribute assignment on a string in its `on_selector` (line 151): broken code outside the aggregation.
- `Callbacks.GetMedalCount` and `MedalDetails.GetMedalCount` are two members because the source defines the function twice, once over a table without the Olympiad column.
- Aliasing of data frames: every `copy()` is modelled as a value. Only the Stockholm relabel and the `Medal_type_code` column are modelled as in-place writes to an array.
