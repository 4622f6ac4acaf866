/**
 * `MedalsBySeason`: the per-olympiad medal count table restricted to one
 * season, and the two data-dependent parts of its bar chart: the order of the
 * Olympiad axis and the "Stockholm 1956" note.
 */
module MedalsBySeason {
  import opened Tables
  import opened Medals

  function SeasonOf(r: OlympiadMedalCount): string
  {
    r.season
  }

  function OlympiadOf(r: OlympiadMedalCount): string
  {
    r.olympiad
  }

  /**
   * `_compute_medals_by_season`: "All" returns the stored table itself; any
   * other season its rows of that season, in their order (renumbered, which a
   * sequence already is).
   */
  function ComputeMedalsBySeason(stored: seq<OlympiadMedalCount>, season: string): (r: seq<OlympiadMedalCount>)
    ensures season == All ==> r == stored
    ensures season != All ==> forall x :: x in r <==> x in stored && x.season == season
    ensures season != All ==> forall x :: multiset(r)[x] == if x.season == season then multiset(stored)[x] else 0
    ensures SubsequenceOf(r, stored)
  {
    SelectUnlessAll(stored, season, SeasonOf)
  }

  /** The note "(*) Stockholm 1956: only equestrian games" is drawn for every season but winter. */
  predicate HasStockholmNote(season: string)
  {
    season != Winter
  }

  /** `df["Olympiad"].unique()`: the Olympiad axis, each label once in order of first appearance. */
  function OlympiadAxis(rows: seq<OlympiadMedalCount>): (order: seq<string>)
    ensures NoDup(order)
    ensures forall o :: o in order <==> exists x :: x in rows && x.olympiad == o
  {
    MapSeqMembers(rows, OlympiadOf);
    Distinct(MapSeq(rows, OlympiadOf))
  }

  /** The axis lists the labels in the order in which they first occur in the rows. */
  lemma OlympiadAxisInFirstAppearanceOrder(rows: seq<OlympiadMedalCount>)
    ensures forall i, j :: 0 <= i < j < |OlympiadAxis(rows)| ==>
              IndexOf(MapSeq(rows, OlympiadOf), OlympiadAxis(rows)[i]) < IndexOf(MapSeq(rows, OlympiadOf), OlympiadAxis(rows)[j])
  {
    DistinctKeepsFirstAppearanceOrder(MapSeq(rows, OlympiadOf));
  }

  /** What the bar chart shows besides its styling: the bars, the axis order and whether the note is drawn. */
  datatype BarChart = BarChart(rows: seq<OlympiadMedalCount>, olympiadOrder: seq<string>, stockholmNote: bool)

  /** `_plot_bar_medal_season` without the figure. */
  function PlotBarMedalSeason(rows: seq<OlympiadMedalCount>, season: string): (c: BarChart)
    ensures c.rows == rows
    ensures c.stockholmNote <==> season != Winter
    ensures NoDup(c.olympiadOrder)
    ensures forall o :: o in c.olympiadOrder <==> exists x :: x in rows && x.olympiad == o
  {
    BarChart(rows, OlympiadAxis(rows), HasStockholmNote(season))
  }

  /** `create_bar_medal_season`: the season's rows drawn with their own axis. */
  function CreateBarMedalSeason(stored: seq<OlympiadMedalCount>, season: string): (c: BarChart)
    ensures c.rows == ComputeMedalsBySeason(stored, season)
    ensures c.stockholmNote <==> season != Winter
    ensures season != All ==> forall o :: o in c.olympiadOrder ==>
              exists x :: x in stored && x.season == season && x.olympiad == o
  {
    PlotBarMedalSeason(ComputeMedalsBySeason(stored, season), season)
  }

  /**
   * When every row is a summer or a winter row, the summer and the winter
   * selections split the stored table between them.
   */
  lemma SeasonsSplitTheTable(stored: seq<OlympiadMedalCount>)
    requires forall x :: x in stored ==> x.season == Summer || x.season == Winter
    ensures |ComputeMedalsBySeason(stored, Summer)| + |ComputeMedalsBySeason(stored, Winter)| == |stored|
  {
    var summer, winter := ComputeMedalsBySeason(stored, Summer), ComputeMedalsBySeason(stored, Winter);
    assert multiset(summer) + multiset(winter) == multiset(stored) by {
      forall x ensures multiset(summer)[x] + multiset(winter)[x] == multiset(stored)[x] {
        if x !in stored {
          assert multiset(stored)[x] == 0;
        }
      }
    }
    assert |multiset(summer) + multiset(winter)| == |stored|;
  }
}
