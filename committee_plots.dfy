/**
 * The data behind `plot_total_medals_by_country` (medals of the selected
 * committees per Olympiad, zero-filled, optionally as percentages) and behind
 * `plot_medals_grid` (medals of one committee per Olympiad and discipline).
 */
module CommitteePlots {
  import opened Tables
  import opened Medals
  import opened Percentages
  import opened DisciplineGrids

  /** The row mask of the time series: the season always, the medal type unless "All". */
  predicate Selected(x: MedalRecord, season: string, medalType: string)
  {
    x.season == season && (medalType == All || x.medalType == medalType)
  }

  /** The season filter followed by the medal-type filter that "All" skips. */
  function SeasonMedalFilter(records: seq<MedalRecord>, season: string, medalType: string): (r: seq<MedalRecord>)
    ensures forall x :: x in r <==> x in records && Selected(x, season, medalType)
    ensures forall x :: multiset(r)[x] == if Selected(x, season, medalType) then multiset(records)[x] else 0
  {
    var bySeason := Filter(records, InSeason(season));
    if medalType != All then Filter(bySeason, OfMedalType(medalType)) else bySeason
  }

  const Stockholm1956 := "Stockholm 1956"
  const Melbourne1956 := "Melbourne 1956"

  /** The 1956 equestrian events held in Stockholm are shown under Melbourne 1956. */
  function RelabelRecord(x: MedalRecord): (y: MedalRecord)
    ensures y.olympiad != Stockholm1956
    ensures x.olympiad != Stockholm1956 ==> y == x
    ensures y == x.(olympiad := y.olympiad)
  {
    if x.olympiad == Stockholm1956 then x.(olympiad := Melbourne1956) else x
  }

  /** The table after the relabelling: the same rows, none of them labelled "Stockholm 1956". */
  function Relabelled(s: seq<MedalRecord>): (r: seq<MedalRecord>)
    ensures |r| == |s|
    ensures forall i :: 0 <= i < |s| ==> r[i].olympiad != Stockholm1956
    ensures forall i :: 0 <= i < |s| ==> r[i] == s[i].(olympiad := r[i].olympiad)
    ensures forall i :: 0 <= i < |s| ==>
              r[i].olympiad == if s[i].olympiad == Stockholm1956 then Melbourne1956 else s[i].olympiad
  {
    MapSeq(s, RelabelRecord)
  }

  /** `df.loc[df["Olympiad"] == "Stockholm 1956", "Olympiad"] = "Melbourne 1956"`, in place. */
  method RelabelStockholm(table: array<MedalRecord>)
    modifies table
    ensures table[..] == Relabelled(old(table[..]))
  {
    forall i | 0 <= i < table.Length {
      table[i] := RelabelRecord(table[i]);
    }
  }

  /** The filtered and relabelled table from which the series is counted. */
  function Prepared(records: seq<MedalRecord>, season: string, medalType: string): seq<MedalRecord>
  {
    Relabelled(SeasonMedalFilter(records, season, medalType))
  }

  /** The rows of one (year, Olympiad) and one committee. */
  function KeyCommittee(k: YearOlympiad, committee: string): MedalRecord -> bool
  {
    (x: MedalRecord) => YearOlympiadOf(x) == k && x.committee == committee
  }

  /** The rows of one (year, Olympiad) whose committee is listed. */
  function KeyInCommittees(k: YearOlympiad, committees: seq<string>): MedalRecord -> bool
  {
    (x: MedalRecord) => YearOlympiadOf(x) == k && x.committee in committees
  }

  /** `groupby(["Olympic_year", "Olympiad", "Committee"]).size()` for one group, 0 when it is absent. */
  function MedalCount(prepared: seq<MedalRecord>, k: YearOlympiad, committee: string): nat
  {
    CountWhere(prepared, KeyCommittee(k, committee))
  }

  function RowKey(r: SeriesRow): YearOlympiad
  {
    YearOlympiad(r.year, r.olympiad)
  }

  /**
   * The pivot of the zero-filled counts: one row per (year, Olympiad) of the
   * table, in sorted order, and a value for every listed committee, including
   * those without a medal in that row. With no committee listed the cross
   * product with the committees is empty, and so is the pivot.
   */
  function CommitteeCounts(prepared: seq<MedalRecord>, committees: seq<string>): (rows: seq<SeriesRow>)
    ensures committees != [] ==> MapSeq(rows, RowKey) == SortedKeys(prepared)
    ensures committees == [] ==> rows == []
    ensures forall i :: 0 <= i < |rows| ==> rows[i].values.Keys == set c | c in committees
    ensures forall i, c :: 0 <= i < |rows| && c in committees ==>
              rows[i].values[c] == MedalCount(prepared, RowKey(rows[i]), c) as real
  {
    if committees == [] then []
    else
      var keys := SortedKeys(prepared);
      var rows := seq(|keys|, i requires 0 <= i < |keys| => CountsRow(prepared, committees, keys[i]));
      assert MapSeq(rows, RowKey) == keys;
      rows
  }

  /** One row of the zero-filled pivot. */
  function CountsRow(prepared: seq<MedalRecord>, committees: seq<string>, k: YearOlympiad): (r: SeriesRow)
    ensures RowKey(r) == k
  {
    SeriesRow(k.year, k.olympiad, map c | c in committees :: MedalCount(prepared, k, c) as real)
  }

  /** Whether every row has a value for every listed committee. */
  predicate HasColumns(rows: seq<SeriesRow>, committees: seq<string>)
  {
    forall i, c :: 0 <= i < |rows| && c in committees ==> c in rows[i].values
  }

  /**
   * `Total_medals`: the sum of each row over the committee columns of the
   * pivot, which hold each listed committee once.
   */
  function RowTotals(rows: seq<SeriesRow>, committees: seq<string>): (totals: seq<real>)
    requires HasColumns(rows, committees)
    ensures |totals| == |rows|
    ensures forall i :: 0 <= i < |rows| ==> totals[i] == SumOver(rows[i].values, Distinct(committees))
  {
    seq(|rows|, i requires 0 <= i < |rows| => SumOver(rows[i].values, Distinct(committees)))
  }

  /** The zero-filled counts can be turned into percentages of their row totals. */
  lemma CountsConvertible(prepared: seq<MedalRecord>, committees: seq<string>)
    ensures var counts := CommitteeCounts(prepared, committees);
      Convertible(counts, RowTotals(counts, committees), committees)
  {
    var counts := CommitteeCounts(prepared, committees);
    var totals := RowTotals(counts, committees);
    forall c | c in committees ensures ColumnConvertible(counts, totals, c) {
      forall i | 0 <= i < |counts| && totals[i] == 0.0 ensures counts[i].values[c] == 0.0 {
        assert totals[i] == SumOver(counts[i].values, Distinct(committees));
        ZeroSumMeansZeroValues(counts[i].values, Distinct(committees));
      }
    }
  }

  /**
   * The series of `plot_total_medals_by_country`: the zero-filled counts, or,
   * when the representation is exactly "Percentage", each committee column
   * converted to a percentage of the row total.
   */
  function CommitteeSeries(records: seq<MedalRecord>, committees: seq<string>, season: string,
                           medalType: string, percentage: string): (rows: seq<SeriesRow>)
    ensures committees != [] ==> MapSeq(rows, RowKey) == SortedKeys(Prepared(records, season, medalType))
    ensures committees == [] ==> rows == []
    ensures forall i :: 0 <= i < |rows| ==> rows[i].values.Keys == set c | c in committees
  {
    var prepared := Prepared(records, season, medalType);
    var counts := CommitteeCounts(prepared, committees);
    if percentage == PercentageMode then
      CountsConvertible(prepared, committees);
      var rows := ConvertColumns(counts, RowTotals(counts, committees), committees);
      assert MapSeq(rows, RowKey) == MapSeq(counts, RowKey);
      rows
    else counts
  }

  /** `plot_total_medals_by_country` up to the figure: the series it draws. */
  method TotalMedalsByCountry(records: seq<MedalRecord>, committees: seq<string>, season: string,
                              medalType: string, percentage: string) returns (rows: seq<SeriesRow>)
    ensures rows == CommitteeSeries(records, committees, season, medalType, percentage)
  {
    var filtered := SeasonMedalFilter(records, season, medalType);
    var table := new MedalRecord[|filtered|](i requires 0 <= i < |filtered| => filtered[i]);
    assert table[..] == filtered;
    RelabelStockholm(table);
    var counts := CommitteeCounts(table[..], committees);
    if percentage == PercentageMode {
      CountsConvertible(table[..], committees);
      rows := ComputePercentage(counts, RowTotals(counts, committees), committees);
    } else {
      rows := counts;
    }
  }

  /** The mask of one series cell over the raw records. */
  function SelectedAt(season: string, medalType: string, k: YearOlympiad, committee: string): MedalRecord -> bool
  {
    (x: MedalRecord) =>
      Selected(x, season, medalType) && YearOlympiadOf(RelabelRecord(x)) == k && x.committee == committee
  }

  /**
   * In the count representation, each value is the number of selected records
   * of that (year, relabelled Olympiad) and committee, 0 when there are none.
   */
  lemma SeriesCountsRecords(records: seq<MedalRecord>, committees: seq<string>, season: string,
                            medalType: string, percentage: string)
    requires percentage != PercentageMode
    ensures var rows := CommitteeSeries(records, committees, season, medalType, percentage);
      forall i, c :: 0 <= i < |rows| && c in committees ==>
        rows[i].values[c] == CountWhere(records, SelectedAt(season, medalType, RowKey(rows[i]), c)) as real
  {
    var rows := CommitteeSeries(records, committees, season, medalType, percentage);
    var filtered := SeasonMedalFilter(records, season, medalType);
    var prepared := Prepared(records, season, medalType);
    forall i, c | 0 <= i < |rows| && c in committees
      ensures rows[i].values[c] == CountWhere(records, SelectedAt(season, medalType, RowKey(rows[i]), c)) as real
    {
      var k := RowKey(rows[i]);
      assert k == MapSeq(rows, RowKey)[i] == SortedKeys(prepared)[i];
      CountsRecordsAt(records, season, medalType, k, c);
    }
  }

  /** A count over the prepared table is a count over the raw records. */
  lemma CountsRecordsAt(records: seq<MedalRecord>, season: string, medalType: string, k: YearOlympiad, committee: string)
    ensures MedalCount(Prepared(records, season, medalType), k, committee) ==
            CountWhere(records, SelectedAt(season, medalType, k, committee))
  {
    var filtered := SeasonMedalFilter(records, season, medalType);
    var onRelabelled := (x: MedalRecord) => YearOlympiadOf(RelabelRecord(x)) == k && x.committee == committee;
    CountWhereOfMap(filtered, RelabelRecord, KeyCommittee(k, committee), onRelabelled);
    var bySeason := Filter(records, InSeason(season));
    if medalType != All {
      var ofType := (x: MedalRecord) => x.medalType == medalType && onRelabelled(x);
      CountWhereOfFilter(bySeason, OfMedalType(medalType), onRelabelled, ofType);
      CountWhereOfFilter(records, InSeason(season), ofType, SelectedAt(season, medalType, k, committee));
    } else {
      CountWhereOfFilter(records, InSeason(season), onRelabelled, SelectedAt(season, medalType, k, committee));
    }
  }

  /** Summing the counts of distinct committees counts the rows of any of them. */
  lemma {:induction false} SumOfCounts(prepared: seq<MedalRecord>, k: YearOlympiad, values: map<string, real>,
                                       ds: seq<string>, inDs: MedalRecord -> bool)
    requires NoDup(ds)
    requires forall c :: c in ds ==> c in values && values[c] == MedalCount(prepared, k, c) as real
    requires forall x :: inDs(x) == (YearOlympiadOf(x) == k && x.committee in ds)
    ensures SumOver(values, ds) == CountWhere(prepared, inDs) as real
  {
    if ds == [] {
      CountWhereNone(prepared, inDs);
    } else {
      var rest := ds[1..];
      assert NoDup(rest) by {
        forall i, j | 0 <= i < j < |rest| ensures rest[i] != rest[j] {
          assert ds[i + 1] != ds[j + 1];
        }
      }
      assert ds[0] !in rest by {
        forall j | 0 <= j < |rest| ensures rest[j] != ds[0] {
          assert ds[j + 1] != ds[0];
        }
      }
      assert forall c :: c in ds <==> c == ds[0] || c in rest by {
        assert ds == [ds[0]] + rest;
      }
      var inRest := KeyInCommittees(k, rest);
      SumOfCounts(prepared, k, values, rest, inRest);
      CountWhereSplit(prepared, inDs, KeyCommittee(k, ds[0]), inRest);
    }
  }

  /**
   * `Total_medals` of a row is the number of records of that (year, Olympiad)
   * won by any listed committee.
   */
  lemma RowTotalCountsListedCommittees(prepared: seq<MedalRecord>, committees: seq<string>)
    ensures var counts := CommitteeCounts(prepared, committees);
      var totals := RowTotals(counts, committees);
      forall i :: 0 <= i < |counts| ==>
        totals[i] == CountWhere(prepared, KeyInCommittees(RowKey(counts[i]), committees)) as real
  {
    var counts := CommitteeCounts(prepared, committees);
    var totals := RowTotals(counts, committees);
    forall i | 0 <= i < |counts|
      ensures totals[i] == CountWhere(prepared, KeyInCommittees(RowKey(counts[i]), committees)) as real
    {
      var k := RowKey(counts[i]);
      assert k == MapSeq(counts, RowKey)[i] == SortedKeys(prepared)[i];
      SumOfCounts(prepared, k, counts[i].values, Distinct(committees), KeyInCommittees(k, committees));
    }
  }

  /**
   * In the "Percentage" representation with each committee listed once, the
   * values of a row add up to 100 when the row total is positive and are all 0
   * when it is 0.
   */
  lemma SeriesPercentagesAddUpTo100(records: seq<MedalRecord>, committees: seq<string>, season: string, medalType: string)
    requires NoDup(committees)
    ensures var prepared := Prepared(records, season, medalType);
      var counts := CommitteeCounts(prepared, committees);
      var totals := RowTotals(counts, committees);
      var rows := CommitteeSeries(records, committees, season, medalType, PercentageMode);
      forall i :: 0 <= i < |rows| ==>
        && (totals[i] > 0.0 ==> SumOver(rows[i].values, committees) == 100.0)
        && (totals[i] == 0.0 ==> forall c :: c in committees ==> rows[i].values[c] == 0.0)
  {
    var prepared := Prepared(records, season, medalType);
    var counts := CommitteeCounts(prepared, committees);
    var totals := RowTotals(counts, committees);
    CountsConvertible(prepared, committees);
    var rows := CommitteeSeries(records, committees, season, medalType, PercentageMode);
    assert rows == ConvertColumns(counts, totals, committees);
    ConvertColumnsValues(counts, totals, committees);
    DistinctOfNoDup(committees);
    forall i | 0 <= i < |rows| && totals[i] > 0.0
      ensures SumOver(rows[i].values, committees) == 100.0
    {
      assert totals[i] == SumOver(counts[i].values, committees);
      PercentsAddUpTo100(counts[i].values, rows[i].values, committees);
    }
  }

  /**
   * `plot_medals_grid` without the figure: the disciplines are taken from the
   * whole season before the committee filter, so the columns do not depend on
   * the committee.
   */
  function MedalsGrid(records: seq<MedalRecord>, committee: string, season: string): (r: (Grid, seq<string>))
    ensures r.0.columns == Disciplines(FilterOlympicSeason(records, season))
    ensures NoDup(r.0.columns)
  {
    var seasonRecords := FilterOlympicSeason(records, season);
    var g := CreateMedalsGrid(seasonRecords, Disciplines(seasonRecords), committee);
    (g, OrderedOlympiads(g))
  }

  /** The function-based grid and the grids of `MedalsByOlympicAndDiscipline` coincide. */
  lemma MedalsGridMatchesSeasonGrids(records: seq<MedalRecord>, committee: string)
    ensures MedalsGrid(records, committee, Summer) == PlotMedalsGridSummer(Init(records), committee)
    ensures MedalsGrid(records, committee, Winter) == PlotMedalsGridWinter(Init(records), committee)
  {
  }
}
