/**
 * `SunburstByGender`: the medals of one Olympiad (or of all of them) broken
 * down by gender, discipline and event. Only the four columns the sunburst
 * needs are kept, once, when the object is built.
 */
module Sunburst {
  import opened Tables
  import opened Medals

  /** A row of the sunburst table: Olympiad, Gender, Discipline and Event, as strings. */
  datatype SunburstRow = SunburstRow(olympiad: string, gender: string, discipline: string, event: string)

  function ToSunburstRow(x: MedalRecord): SunburstRow
  {
    SunburstRow(x.olympiad, x.gender, x.discipline, x.event)
  }

  /** `_make_initial_sunburst`: one row per medal record, carrying its four columns. */
  function MakeInitialSunburst(records: seq<MedalRecord>): (rows: seq<SunburstRow>)
    ensures |rows| == |records|
    ensures forall i :: 0 <= i < |records| ==>
              && rows[i].olympiad == records[i].olympiad
              && rows[i].gender == records[i].gender
              && rows[i].discipline == records[i].discipline
              && rows[i].event == records[i].event
  {
    MapSeq(records, ToSunburstRow)
  }

  function OlympiadOf(r: SunburstRow): string
  {
    r.olympiad
  }

  /**
   * `_compute_sunburst_data`: "All" returns the prepared table itself; any other
   * selection exactly its rows of that Olympiad, in order.
   */
  function ComputeSunburstData(sunburst: seq<SunburstRow>, selection: string): (r: seq<SunburstRow>)
    ensures selection == All ==> r == sunburst
    ensures selection != All ==> forall x :: x in r <==> x in sunburst && x.olympiad == selection
    ensures selection != All ==> forall x :: multiset(r)[x] == if x.olympiad == selection then multiset(sunburst)[x] else 0
    ensures SubsequenceOf(r, sunburst) && |r| <= |sunburst|
  {
    SelectUnlessAll(sunburst, selection, OlympiadOf)
  }

  /** The medal records of one Olympiad. */
  function AtOlympiad(olympiad: string): MedalRecord -> bool
  {
    (x: MedalRecord) => x.olympiad == olympiad
  }

  /**
   * The sunburst of one Olympiad has one row per medal awarded there, and the
   * "All" sunburst one row per medal record.
   */
  lemma SunburstCountsMedals(records: seq<MedalRecord>, selection: string)
    ensures |ComputeSunburstData(MakeInitialSunburst(records), selection)| ==
            if selection == All then |records| else CountWhere(records, AtOlympiad(selection))
  {
    if selection != All {
      var rows := MakeInitialSunburst(records);
      assert ComputeSunburstData(rows, selection) == Filter(rows, Matches(OlympiadOf, selection));
      CountWhereOfMap(records, ToSunburstRow, Matches(OlympiadOf, selection), AtOlympiad(selection));
    }
  }
}
