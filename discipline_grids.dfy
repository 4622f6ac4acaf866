/**
 * `MedalsByOlympicAndDiscipline`: the medals of one committee per Olympiad and
 * discipline, as a grid whose discipline columns are fixed per season before
 * the committee is chosen, so every committee gets the same columns.
 */
module DisciplineGrids {
  import opened Tables
  import opened Medals

  /** `_filter_olympic_season`: the records of one season, in their order. */
  function FilterOlympicSeason(records: seq<MedalRecord>, season: string): (r: seq<MedalRecord>)
    ensures forall x :: x in r <==> x in records && x.season == season
    ensures forall x :: multiset(r)[x] == if x.season == season then multiset(records)[x] else 0
    ensures SubsequenceOf(r, records)
  {
    Filter(records, InSeason(season))
  }

  function DisciplineOf(x: MedalRecord): string
  {
    x.discipline
  }

  /** `df["Discipline"].unique()`: each discipline of the rows once. */
  function Disciplines(s: seq<MedalRecord>): (ds: seq<string>)
    ensures NoDup(ds)
    ensures forall d :: d in ds <==> exists x :: x in s && x.discipline == d
  {
    MapSeqMembers(s, DisciplineOf);
    Distinct(MapSeq(s, DisciplineOf))
  }

  /** The disciplines are listed in the order in which they first appear in the rows. */
  lemma DisciplinesInFirstAppearanceOrder(s: seq<MedalRecord>)
    ensures forall i, j :: 0 <= i < j < |Disciplines(s)| ==>
              IndexOf(MapSeq(s, DisciplineOf), Disciplines(s)[i]) < IndexOf(MapSeq(s, DisciplineOf), Disciplines(s)[j])
  {
    DistinctKeepsFirstAppearanceOrder(MapSeq(s, DisciplineOf));
  }

  /** The rows of one committee. */
  function OfCommittee(committee: string): MedalRecord -> bool
  {
    (x: MedalRecord) => x.committee == committee
  }

  /** The rows of one Olympiad and one discipline: a cell of the pivot. */
  function AtDiscipline(k: YearOlympiad, discipline: string): MedalRecord -> bool
  {
    (x: MedalRecord) => YearOlympiadOf(x) == k && x.discipline == discipline
  }

  /** The rows of one committee, Olympiad and discipline: a cell of the grid. */
  function CommitteeAt(committee: string, k: YearOlympiad, discipline: string): MedalRecord -> bool
  {
    (x: MedalRecord) => x.committee == committee && YearOlympiadOf(x) == k && x.discipline == discipline
  }

  /** A row of the pivot: an (Olympiad, Olympic_year) index entry and a count per discipline column. */
  datatype PivotRow = PivotRow(olympiad: string, year: int, counts: map<string, nat>)

  function PivotKey(r: PivotRow): YearOlympiad
  {
    YearOlympiad(r.year, r.olympiad)
  }

  /**
   * `_pivot_olympic_by_discipline`: one row per (Olympiad, Olympic_year) of the
   * rows, sorted by year (`sort_index(level=1)`, then by label), and one column
   * per discipline that occurs in the rows, with 0 where a pair has no medal.
   */
  function PivotOlympicByDiscipline(s: seq<MedalRecord>): (rows: seq<PivotRow>)
    ensures MapSeq(rows, PivotKey) == SortedKeys(s)
    ensures forall i :: 0 <= i < |rows| ==>
              forall d :: d in rows[i].counts <==> exists x :: x in s && x.discipline == d
  {
    var keys := SortedKeys(s);
    var rows := seq(|keys|, i requires 0 <= i < |keys| => PivotRowAt(s, keys[i]));
    assert MapSeq(rows, PivotKey) == keys;
    rows
  }

  /** The disciplines that occur in the rows: the columns of the pivot. */
  function PresentDisciplines(s: seq<MedalRecord>): (ds: set<string>)
    ensures forall d :: d in ds <==> exists x :: x in s && x.discipline == d
  {
    set x | x in s :: x.discipline
  }

  /** The pivot row of one (Olympiad, Olympic_year): a count for every discipline present. */
  function PivotRowAt(s: seq<MedalRecord>, k: YearOlympiad): (r: PivotRow)
    ensures PivotKey(r) == k
    ensures r.counts.Keys == PresentDisciplines(s)
    ensures forall d :: d in r.counts ==> r.counts[d] == CountWhere(s, AtDiscipline(k, d))
  {
    PivotRow(k.olympiad, k.year, map d | d in PresentDisciplines(s) :: CountWhere(s, AtDiscipline(k, d)))
  }

  /** A row of the grid: its Olympiad and one cell per discipline column. */
  datatype GridRow = GridRow(olympiad: string, year: int, cells: seq<nat>)

  /** The grid drawn as a heat map: discipline columns and Olympiad rows. */
  datatype Grid = Grid(columns: seq<string>, rows: seq<GridRow>)

  function GridKey(r: GridRow): YearOlympiad
  {
    YearOlympiad(r.year, r.olympiad)
  }

  /** `reindex(columns=columns, fill_value=0)`: exactly the given columns, 0 for those the pivot lacks. */
  function ReindexColumns(pivot: seq<PivotRow>, columns: seq<string>): (g: Grid)
    ensures g.columns == columns
    ensures MapSeq(g.rows, GridKey) == MapSeq(pivot, PivotKey)
    ensures forall i :: 0 <= i < |g.rows| ==> |g.rows[i].cells| == |columns|
    ensures forall i, j :: 0 <= i < |g.rows| && 0 <= j < |columns| ==>
              g.rows[i].cells[j] == if columns[j] in pivot[i].counts then pivot[i].counts[columns[j]] else 0
  {
    var rows := MapSeq(pivot, (r: PivotRow) =>
      GridRow(r.olympiad, r.year, MapSeq(columns, (d: string) => if d in r.counts then r.counts[d] else 0)));
    assert MapSeq(rows, GridKey) == MapSeq(pivot, PivotKey);
    Grid(columns, rows)
  }

  /**
   * `_create_medals_grid`: the committee's rows of the season table, pivoted,
   * with the season's discipline list as columns. The rows are the committee's
   * Olympiads in (year, label) order, each once.
   */
  function CreateMedalsGrid(seasonRecords: seq<MedalRecord>, disciplines: seq<string>, committee: string): (g: Grid)
    ensures g.columns == disciplines
    ensures forall i :: 0 <= i < |g.rows| ==> |g.rows[i].cells| == |disciplines|
    ensures NoDup(MapSeq(g.rows, GridKey)) && SortedBy(MapSeq(g.rows, GridKey), YearOlympiadLe)
    ensures forall k :: k in MapSeq(g.rows, GridKey) <==>
              exists x :: x in seasonRecords && x.committee == committee && YearOlympiadOf(x) == k
  {
    var mine := Filter(seasonRecords, OfCommittee(committee));
    ReindexColumns(PivotOlympicByDiscipline(mine), disciplines)
  }

  /**
   * Every cell of the grid is the number of the season's medals of that
   * committee, Olympiad and discipline, 0 when there are none.
   */
  lemma GridCellsCountMedals(seasonRecords: seq<MedalRecord>, disciplines: seq<string>, committee: string)
    ensures var g := CreateMedalsGrid(seasonRecords, disciplines, committee);
      forall i, j :: 0 <= i < |g.rows| && 0 <= j < |disciplines| ==>
        g.rows[i].cells[j] == CountWhere(seasonRecords, CommitteeAt(committee, GridKey(g.rows[i]), disciplines[j]))
  {
    var mine := Filter(seasonRecords, OfCommittee(committee));
    var pivot := PivotOlympicByDiscipline(mine);
    var g := CreateMedalsGrid(seasonRecords, disciplines, committee);
    forall i, j | 0 <= i < |g.rows| && 0 <= j < |disciplines|
      ensures g.rows[i].cells[j] == CountWhere(seasonRecords, CommitteeAt(committee, GridKey(g.rows[i]), disciplines[j]))
    {
      var d := disciplines[j];
      var k := SortedKeys(mine)[i];
      assert GridKey(g.rows[i]) == MapSeq(g.rows, GridKey)[i] == MapSeq(pivot, PivotKey)[i] == k;
      CountWhereOfFilter(seasonRecords, OfCommittee(committee), AtDiscipline(k, d), CommitteeAt(committee, k, d));
      if d !in pivot[i].counts {
        CountWhereNone(mine, AtDiscipline(k, d));
      }
    }
  }

  /** The Olympiad level of a grid row's index. */
  function OlympiadLabel(r: GridRow): string
  {
    r.olympiad
  }

  /**
   * `index.get_level_values("Olympiad").unique()`: the grid's Olympiad labels,
   * each once, in the order in which they first appear down the rows.
   */
  function OrderedOlympiads(g: Grid): (olympiads: seq<string>)
    ensures NoDup(olympiads)
    ensures forall o :: o in olympiads <==> exists i :: 0 <= i < |g.rows| && g.rows[i].olympiad == o
    ensures forall o :: o in olympiads <==> o in MapSeq(g.rows, OlympiadLabel)
    ensures forall i, j :: 0 <= i < j < |olympiads| ==>
              IndexOf(MapSeq(g.rows, OlympiadLabel), olympiads[i]) < IndexOf(MapSeq(g.rows, OlympiadLabel), olympiads[j])
  {
    var labels := MapSeq(g.rows, OlympiadLabel);
    assert forall o :: o in labels <==> exists i :: 0 <= i < |g.rows| && g.rows[i].olympiad == o by {
      forall o ensures o in labels <==> exists i :: 0 <= i < |g.rows| && g.rows[i].olympiad == o {
        if o in labels {
          var i :| 0 <= i < |labels| && labels[i] == o;
        }
      }
    }
    DistinctKeepsFirstAppearanceOrder(labels);
    Distinct(labels)
  }

  /**
   * On a grid built by `_create_medals_grid` the Olympiad axis runs in year
   * order: the first row of an earlier label is never later than the first
   * row of a later one.
   */
  lemma OlympiadAxisInYearOrder(seasonRecords: seq<MedalRecord>, disciplines: seq<string>, committee: string)
    ensures var g := CreateMedalsGrid(seasonRecords, disciplines, committee);
      var olympiads := OrderedOlympiads(g);
      var labels := MapSeq(g.rows, OlympiadLabel);
      forall i, j :: 0 <= i < j < |olympiads| ==>
        g.rows[IndexOf(labels, olympiads[i])].year <= g.rows[IndexOf(labels, olympiads[j])].year
  {
    var g := CreateMedalsGrid(seasonRecords, disciplines, committee);
    var olympiads := OrderedOlympiads(g);
    var labels := MapSeq(g.rows, OlympiadLabel);
    var keys := MapSeq(g.rows, GridKey);
    forall i, j | 0 <= i < j < |olympiads|
      ensures g.rows[IndexOf(labels, olympiads[i])].year <= g.rows[IndexOf(labels, olympiads[j])].year
    {
      var a, b := IndexOf(labels, olympiads[i]), IndexOf(labels, olympiads[j]);
      assert YearOlympiadLe(keys[a], keys[b]);
    }
  }

  /**
   * The fields set by the constructor: a copy of the records, each season's
   * records and each season's disciplines (over all committees).
   */
  datatype MedalsByOlympicAndDiscipline = MedalsByOlympicAndDiscipline(
    olympicMedals: seq<MedalRecord>,
    summer: seq<MedalRecord>,
    winter: seq<MedalRecord>,
    summerDisciplines: seq<string>,
    winterDisciplines: seq<string>)

  /** `MedalsByOlympicAndDiscipline.__init__` */
  function Init(records: seq<MedalRecord>): (m: MedalsByOlympicAndDiscipline)
    ensures m.olympicMedals == records
    ensures forall x :: x in m.summer <==> x in records && x.season == Summer
    ensures forall x :: x in m.winter <==> x in records && x.season == Winter
    ensures NoDup(m.summerDisciplines) && NoDup(m.winterDisciplines)
    ensures forall d :: d in m.summerDisciplines <==>
              exists x :: x in records && x.season == Summer && x.discipline == d
    ensures forall d :: d in m.winterDisciplines <==>
              exists x :: x in records && x.season == Winter && x.discipline == d
  {
    var summer := FilterOlympicSeason(records, Summer);
    var winter := FilterOlympicSeason(records, Winter);
    MedalsByOlympicAndDiscipline(records, summer, winter, Disciplines(summer), Disciplines(winter))
  }

  /**
   * `plot_medals_grid_summer` without the figure: the summer grid of a
   * committee and its Olympiad axis. The columns do not depend on the committee.
   */
  function PlotMedalsGridSummer(m: MedalsByOlympicAndDiscipline, committee: string): (r: (Grid, seq<string>))
    ensures r.0.columns == m.summerDisciplines
  {
    var g := CreateMedalsGrid(m.summer, m.summerDisciplines, committee);
    (g, OrderedOlympiads(g))
  }

  /** `plot_medals_grid_winter`: the same with the winter table and disciplines. */
  function PlotMedalsGridWinter(m: MedalsByOlympicAndDiscipline, committee: string): (r: (Grid, seq<string>))
    ensures r.0.columns == m.winterDisciplines
  {
    var g := CreateMedalsGrid(m.winter, m.winterDisciplines, committee);
    (g, OrderedOlympiads(g))
  }

  /**
   * A cell of the summer grid counts the committee's summer medals of that
   * Olympiad and discipline among all records given to the constructor.
   */
  lemma SummerGridCountsRecords(records: seq<MedalRecord>, committee: string)
    ensures var g := PlotMedalsGridSummer(Init(records), committee).0;
      forall i, j :: 0 <= i < |g.rows| && 0 <= j < |g.columns| ==>
        g.rows[i].cells[j] ==
          CountWhere(records, SeasonAt(Summer, committee, GridKey(g.rows[i]), g.columns[j]))
  {
    var m := Init(records);
    GridCellsCountMedals(m.summer, m.summerDisciplines, committee);
    var g := PlotMedalsGridSummer(m, committee).0;
    forall i, j | 0 <= i < |g.rows| && 0 <= j < |g.columns|
      ensures g.rows[i].cells[j] ==
          CountWhere(records, SeasonAt(Summer, committee, GridKey(g.rows[i]), g.columns[j]))
    {
      var k, d := GridKey(g.rows[i]), g.columns[j];
      CountWhereOfFilter(records, InSeason(Summer), CommitteeAt(committee, k, d), SeasonAt(Summer, committee, k, d));
    }
  }

  /** The rows of one season, committee, Olympiad and discipline. */
  function SeasonAt(season: string, committee: string, k: YearOlympiad, discipline: string): MedalRecord -> bool
  {
    (x: MedalRecord) => x.season == season && x.committee == committee && YearOlympiadOf(x) == k && x.discipline == discipline
  }
}
