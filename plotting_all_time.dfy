/**
 * The module-level bar chart of all-time medals: `create_bar_medals` filters
 * the per-olympiad medal count table by season itself and draws it with the
 * same axis-order and note rule as `MedalsBySeason`.
 */
module PlottingAllTime {
  import opened Tables
  import opened Medals
  import opened MedalsBySeason

  /**
   * `create_bar_medals` without the figure: "All" draws the table it is given,
   * any other season only that season's rows in their order; the note is drawn
   * unless the season is winter.
   */
  function CreateBarMedals(table: seq<OlympiadMedalCount>, season: string): (c: BarChart)
    ensures season == All ==> c.rows == table
    ensures season != All ==> forall x :: x in c.rows <==> x in table && x.season == season
    ensures SubsequenceOf(c.rows, table)
    ensures c.stockholmNote <==> season != Winter
    ensures NoDup(c.olympiadOrder)
    ensures forall o :: o in c.olympiadOrder <==> exists x :: x in c.rows && x.olympiad == o
  {
    var rows := if season != All then Filter(table, Matches(MedalsBySeason.SeasonOf, season)) else table;
    forall x ensures Matches(MedalsBySeason.SeasonOf, season)(x) == (x.season == season) {
      assert MedalsBySeason.SeasonOf(x) == x.season;
    }
    assert SubsequenceOf(rows, table) by {
      if season == All {
        SubsequenceOfItself(table);
      }
    }
    PlotBarMedalSeason(rows, season)
  }

  /** The module function and the `MedalsBySeason` method draw the same chart from the same table. */
  lemma CreateBarMedalsMatchesMedalsBySeason(table: seq<OlympiadMedalCount>, season: string)
    ensures CreateBarMedals(table, season) == CreateBarMedalSeason(table, season)
  {
  }
}
