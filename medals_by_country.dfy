/**
 * `MedalsByCountry`: the committee time series read from the pre-aggregated
 * year x olympiad table, for one season and one medal type, as counts or as
 * percentages of the stored `Total_medals` column.
 */
module MedalsByCountry {
  import opened Tables
  import opened Medals
  import opened Percentages

  const TotalMedalsColumn := "Total_medals"

  /** `columns_for_plot`: the columns selected ahead of the committee columns. */
  const ColumnsForPlot: seq<string> := ["Olympic_year", "Olympiad", TotalMedalsColumn]

  /** The object after `__init__`: its own copy of the table. */
  datatype MedalsByCountry = MedalsByCountry(totalMedals: YearCommitteeTable)

  function Init(t: YearCommitteeTable): (m: MedalsByCountry)
    ensures m.totalMedals == t
  {
    MedalsByCountry(t)
  }

  /** The row mask of `_filter_dataset`: the season and the medal type, both matched literally. */
  function SeasonAndType(season: string, medalType: string): YearCommitteeRow -> bool
  {
    (r: YearCommitteeRow) => r.season == season && r.medalType == medalType
  }

  /** The table after column selection: the column names, the committee values and `Total_medals`. */
  datatype FilteredFrame = FilteredFrame(columns: seq<string>, rows: seq<SeriesRow>, totalMedals: seq<real>)

  /** The listed committees that are not columns, each once, in list order (the labels of the KeyError). */
  function MissingColumns(t: YearCommitteeTable, committees: seq<string>): (missing: seq<string>)
    ensures NoDup(missing)
    ensures forall c :: c in missing <==> c in committees && c !in t.committees
  {
    Distinct(Filter(committees, (c: string) => c !in t.committees))
  }

  /** A stored row with only the listed committee columns. */
  function Project(r: YearCommitteeRow, committees: seq<string>): (s: SeriesRow)
    requires forall c :: c in committees ==> c in r.byCommittee
    ensures s.values.Keys == set c | c in committees
  {
    SeriesRow(r.year, r.olympiad, map c | c in committees :: r.byCommittee[c])
  }

  /**
   * `_filter_dataset`: the rows of the season and medal type ("All" is not a
   * bypass here), restricted to Olympic_year, Olympiad, Total_medals and the
   * listed committees; a committee that is not a column raises KeyError.
   */
  function FilterDataset(t: YearCommitteeTable, committees: seq<string>, season: string, medalType: string)
    : (r: Result<FilteredFrame>)
    requires WellFormed(t)
    ensures r.Err? <==> exists c :: c in committees && c !in t.committees
    ensures r.Err? ==> r.failure == KeyError(MissingColumns(t, committees))
    ensures r.Ok? ==> r.value.columns == ColumnsForPlot + committees
    ensures r.Ok? ==> |r.value.rows| == |r.value.totalMedals|
  {
    var missing := MissingColumns(t, committees);
    if missing != [] then
      Err(KeyError(missing))
    else
      assert forall c :: c in committees ==> c in t.committees;
      var kept := Filter(t.rows, SeasonAndType(season, medalType));
      assert forall r :: r in kept ==> r.byCommittee.Keys == t.committees;
      var rows := seq(|kept|, i requires 0 <= i < |kept| => Project(kept[i], committees));
      var totals := seq(|kept|, i requires 0 <= i < |kept| => kept[i].totalMedals);
      Ok(FilteredFrame(ColumnsForPlot + committees, rows, totals))
  }

  /**
   * The filtered frame has one row per stored row of the season and medal
   * type, in order, carrying that row's year, label, `Total_medals` and
   * committee values.
   */
  lemma FilterDatasetRows(t: YearCommitteeTable, committees: seq<string>, season: string, medalType: string)
    requires WellFormed(t)
    requires forall c :: c in committees ==> c in t.committees
    ensures var r := FilterDataset(t, committees, season, medalType);
      var kept := Filter(t.rows, SeasonAndType(season, medalType));
      && r.Ok?
      && |r.value.rows| == |kept|
      && (forall i :: 0 <= i < |kept| ==>
            && kept[i].season == season && kept[i].medalType == medalType
            && r.value.rows[i].year == kept[i].year && r.value.rows[i].olympiad == kept[i].olympiad
            && r.value.totalMedals[i] == kept[i].totalMedals
            && kept[i].byCommittee.Keys == t.committees
            && forall c :: c in committees ==> r.value.rows[i].values[c] == kept[i].byCommittee[c])
  {
    var kept := Filter(t.rows, SeasonAndType(season, medalType));
    assert forall i :: 0 <= i < |kept| ==> kept[i] in kept;
  }

  /** A nonzero committee value never meets a zero `Total_medals`: the percentage is finite. */
  predicate FiniteShares(t: YearCommitteeTable, committees: seq<string>)
  {
    forall i, c :: 0 <= i < |t.rows| && c in committees && c in t.rows[i].byCommittee ==>
      t.rows[i].totalMedals != 0.0 || t.rows[i].byCommittee[c] == 0.0
  }

  /** The frame that is drawn: the columns without `Total_medals`, and the committee values. */
  datatype PlotFrame = PlotFrame(columns: seq<string>, rows: seq<SeriesRow>)

  /** `drop(columns=["Total_medals"])` on the column list. */
  function DropTotalMedals(columns: seq<string>): (r: seq<string>)
    ensures TotalMedalsColumn !in r
    ensures forall c :: c in r <==> c in columns && c != TotalMedalsColumn
  {
    Filter(columns, NotTotalMedals)
  }

  predicate NotTotalMedals(c: string)
  {
    c != TotalMedalsColumn
  }

  /** Dropping `Total_medals` from the plotted columns leaves the year, the label and the committees. */
  lemma DropTotalMedalsFromPlotColumns(committees: seq<string>)
    requires TotalMedalsColumn !in committees
    ensures DropTotalMedals(ColumnsForPlot + committees) == ["Olympic_year", "Olympiad"] + committees
  {
    var head: seq<string> := ["Olympic_year", "Olympiad"];
    var tail := [TotalMedalsColumn] + committees;
    assert ColumnsForPlot + committees == head + tail;
    assert NotTotalMedals(head[0]) by { assert head[0][0] != TotalMedalsColumn[0]; }
    assert NotTotalMedals(head[1]) by { assert head[1][0] != TotalMedalsColumn[0]; }
    FilterKeepsAll(head, NotTotalMedals);
    assert tail[1..] == committees;
    assert Filter(tail, NotTotalMedals) == Filter(committees, NotTotalMedals);
    FilterKeepsAll(committees, NotTotalMedals);
    FilterConcat(head, tail, NotTotalMedals);
  }

  /**
   * What `_compute_medals_by_committee` returns: the filtered frame, with its
   * committee columns converted when the representation is exactly
   * "Percentage", and without the `Total_medals` column.
   */
  function MedalsByCommittee(t: YearCommitteeTable, committees: seq<string>, season: string,
                             medalType: string, percentage: string): (r: Result<PlotFrame>)
    requires WellFormed(t)
    requires percentage == PercentageMode ==> FiniteShares(t, committees)
    ensures r.Err? <==> exists c :: c in committees && c !in t.committees
    ensures r.Ok? ==> TotalMedalsColumn !in r.value.columns
  {
    var filtered := FilterDataset(t, committees, season, medalType);
    if filtered.Err? then Err(filtered.failure)
    else
      var f := filtered.value;
      var columns := DropTotalMedals(f.columns);
      if percentage == PercentageMode then
        FilteredFrameConvertible(t, committees, season, medalType);
        Ok(PlotFrame(columns, ConvertColumns(f.rows, f.totalMedals, committees)))
      else
        Ok(PlotFrame(columns, f.rows))
  }

  /** Under `FiniteShares` the filtered frame's committee columns can be converted. */
  lemma FilteredFrameConvertible(t: YearCommitteeTable, committees: seq<string>, season: string, medalType: string)
    requires WellFormed(t) && FiniteShares(t, committees)
    requires forall c :: c in committees ==> c in t.committees
    ensures var f := FilterDataset(t, committees, season, medalType).value;
      Convertible(f.rows, f.totalMedals, committees)
  {
    var f := FilterDataset(t, committees, season, medalType).value;
    var kept := Filter(t.rows, SeasonAndType(season, medalType));
    FilterDatasetRows(t, committees, season, medalType);
    forall c | c in committees ensures ColumnConvertible(f.rows, f.totalMedals, c) {
      forall i | 0 <= i < |f.rows|
        ensures c in f.rows[i].values && (f.totalMedals[i] != 0.0 || f.rows[i].values[c] == 0.0)
      {
        assert kept[i] in t.rows;
        var j :| 0 <= j < |t.rows| && t.rows[j] == kept[i];
      }
    }
  }

  /** `_compute_medals_by_committee`: filter, convert column by column in place, drop `Total_medals`. */
  method ComputeMedalsByCommittee(m: MedalsByCountry, committees: seq<string>, season: string,
                                  medalType: string, percentage: string) returns (r: Result<PlotFrame>)
    requires WellFormed(m.totalMedals)
    requires percentage == PercentageMode ==> FiniteShares(m.totalMedals, committees)
    ensures r == MedalsByCommittee(m.totalMedals, committees, season, medalType, percentage)
  {
    var filtered := FilterDataset(m.totalMedals, committees, season, medalType);
    if filtered.Err? {
      return Err(filtered.failure);
    }
    var rows := filtered.value.rows;
    if percentage == PercentageMode {
      FilteredFrameConvertible(m.totalMedals, committees, season, medalType);
      rows := ComputePercentage(rows, filtered.value.totalMedals, committees);
    }
    r := Ok(PlotFrame(DropTotalMedals(filtered.value.columns), rows));
  }

  /** The frame's columns are Olympic_year, Olympiad and the listed committees, in that order. */
  lemma PlotColumns(t: YearCommitteeTable, committees: seq<string>, season: string, medalType: string, percentage: string)
    requires WellFormed(t)
    requires percentage == PercentageMode ==> FiniteShares(t, committees)
    requires forall c :: c in committees ==> c in t.committees
    ensures MedalsByCommittee(t, committees, season, medalType, percentage).value.columns ==
            ["Olympic_year", "Olympiad"] + committees
  {
    var f := FilterDataset(t, committees, season, medalType).value;
    assert MedalsByCommittee(t, committees, season, medalType, percentage).value.columns == DropTotalMedals(f.columns);
    DropTotalMedalsFromPlotColumns(committees);
  }

  /** In the count representation the values are the stored ones. */
  lemma PlotCounts(t: YearCommitteeTable, committees: seq<string>, season: string, medalType: string, percentage: string)
    requires WellFormed(t)
    requires percentage != PercentageMode
    requires forall c :: c in committees ==> c in t.committees
    ensures var kept := Filter(t.rows, SeasonAndType(season, medalType));
      var rows := MedalsByCommittee(t, committees, season, medalType, percentage).value.rows;
      && |rows| == |kept|
      && forall i, c :: 0 <= i < |kept| && c in committees ==> rows[i].values[c] == kept[i].byCommittee[c]
  {
    FilterDatasetRows(t, committees, season, medalType);
  }

  /**
   * In the "Percentage" representation, with each committee listed once, each
   * value is the stored value scaled by 100 / the stored `Total_medals` (not
   * by the sum over the listed committees), and 0 where `Total_medals` is 0.
   */
  lemma PlotPercentages(t: YearCommitteeTable, committees: seq<string>, season: string, medalType: string)
    requires WellFormed(t) && FiniteShares(t, committees) && NoDup(committees)
    requires forall c :: c in committees ==> c in t.committees
    ensures var kept := Filter(t.rows, SeasonAndType(season, medalType));
      var rows := MedalsByCommittee(t, committees, season, medalType, PercentageMode).value.rows;
      && |rows| == |kept|
      && forall i, c :: 0 <= i < |kept| && c in committees ==>
           && (kept[i].totalMedals != 0.0 ==> ScaledBy(rows[i].values[c], kept[i].byCommittee[c], kept[i].totalMedals))
           && (kept[i].totalMedals == 0.0 ==> rows[i].values[c] == 0.0)
  {
    var f := FilterDataset(t, committees, season, medalType).value;
    FilterDatasetRows(t, committees, season, medalType);
    FilteredFrameConvertible(t, committees, season, medalType);
    var rows := MedalsByCommittee(t, committees, season, medalType, PercentageMode).value.rows;
    assert rows == ConvertColumns(f.rows, f.totalMedals, committees);
    ConvertColumnsValues(f.rows, f.totalMedals, committees);
    var kept := Filter(t.rows, SeasonAndType(season, medalType));
    forall i, c | 0 <= i < |kept| && c in committees
      ensures kept[i].totalMedals != 0.0 ==> ScaledBy(rows[i].values[c], kept[i].byCommittee[c], kept[i].totalMedals)
      ensures kept[i].totalMedals == 0.0 ==> rows[i].values[c] == 0.0
    {
      assert rows[i].values[c] == Percent(f.rows[i].values[c], f.totalMedals[i]);
      assert f.rows[i].values[c] == kept[i].byCommittee[c];
      assert f.totalMedals[i] == kept[i].totalMedals;
    }
  }

  /** `create_medals_by_country_summer`: the computation for the summer season. */
  method CreateMedalsByCountrySummer(m: MedalsByCountry, committees: seq<string>, medalType: string,
                                     percentage: string) returns (r: Result<PlotFrame>)
    requires WellFormed(m.totalMedals)
    requires percentage == PercentageMode ==> FiniteShares(m.totalMedals, committees)
    ensures r == MedalsByCommittee(m.totalMedals, committees, Summer, medalType, percentage)
  {
    r := ComputeMedalsByCommittee(m, committees, Summer, medalType, percentage);
  }

  /** `create_medals_by_country_winter`: the computation for the winter season. */
  method CreateMedalsByCountryWinter(m: MedalsByCountry, committees: seq<string>, medalType: string,
                                     percentage: string) returns (r: Result<PlotFrame>)
    requires WellFormed(m.totalMedals)
    requires percentage == PercentageMode ==> FiniteShares(m.totalMedals, committees)
    ensures r == MedalsByCommittee(m.totalMedals, committees, Winter, medalType, percentage)
  {
    r := ComputeMedalsByCommittee(m, committees, Winter, medalType, percentage);
  }
}
