/**
 * The Taipy callbacks that fill the medal cards: the all-time counts of one
 * committee, looked up in the rows of the committee x olympiad table labelled
 * "All", and the dashboard-wide medal totals per type.
 */
module Callbacks {
  import opened Tables
  import opened Medals
  import opened MedalsByOlympics
  import MedalDetails

  function ColumnOf(c: MedalDetails.DetailColumn, m: CommitteeMedals): int
  {
    match c
    case TotalColumn => m.total
    case GoldColumn => m.gold
    case SilverColumn => m.silver
    case BronzeColumn => m.bronze
  }

  /** The mask `df["Committee"] == committee` on the table without its Olympiad column. */
  function OfCommittee(committee: string): CommitteeMedals -> bool
  {
    (m: CommitteeMedals) => m.committee == committee
  }

  /**
   * `_get_medal_count`: the column of the first row of the committee; an
   * IndexError when no row names it.
   */
  function GetMedalCount(table: seq<CommitteeMedals>, column: MedalDetails.DetailColumn, committee: string): (r: Result<int>)
    ensures r.Err? <==> forall m :: m in table ==> m.committee != committee
    ensures r.Err? ==> r.failure == IndexError
    ensures r.Ok? ==> var i := FirstIndex(table, OfCommittee(committee));
              i < |table| && r.value == ColumnOf(column, table[i])
  {
    var i := FirstIndex(table, OfCommittee(committee));
    if i == |table| then
      assert forall m :: m in table ==> m.committee != committee by {
        forall m | m in table ensures m.committee != committee {
          var k :| 0 <= k < |table| && table[k] == m;
          assert !OfCommittee(committee)(table[k]);
        }
      }
      Err(IndexError)
    else
      Ok(ColumnOf(column, table[i]))
  }

  /**
   * `create_medals_detail`: (Total, Gold, Silver, Bronze) of the committee's
   * all-time row, the first row labelled "All" that names it; an IndexError
   * when there is none.
   */
  function CreateMedalsDetail(table: seq<CommitteeOlympiadRow>, committee: string): (r: Result<(int, int, int, int)>)
    ensures r.Err? <==> forall x :: x in table ==> !(x.olympiad == All && x.committee == committee)
    ensures r.Err? ==> r.failure == IndexError
    ensures r.Ok? ==> CommitteeOlympiadRow(All, committee, r.value.1, r.value.2, r.value.3, r.value.0) in table
  {
    var allTime := ComputeDataByOlympics(table, All);
    var i := FirstIndex(allTime, OfCommittee(committee));
    AllTimeLookup(table, committee);
    LookupsReadFirstRow(allTime, committee);
    var total := GetMedalCount(allTime, MedalDetails.TotalColumn, committee);
    // The four lookups select the same rows, so they fail or succeed together.
    if total.Err? then Err(total.failure)
    else
      var gold := GetMedalCount(allTime, MedalDetails.GoldColumn, committee).value;
      var silver := GetMedalCount(allTime, MedalDetails.SilverColumn, committee).value;
      var bronze := GetMedalCount(allTime, MedalDetails.BronzeColumn, committee).value;
      assert Labelled(All, allTime[i]) == CommitteeOlympiadRow(All, committee, gold, silver, bronze, total.value);
      Ok((total.value, gold, silver, bronze))
  }

  /** Each of the four lookups reads its column from the committee's first row, or fails when there is none. */
  lemma LookupsReadFirstRow(table: seq<CommitteeMedals>, committee: string)
    ensures var i := FirstIndex(table, OfCommittee(committee));
      forall c :: GetMedalCount(table, c, committee) == if i < |table| then Ok(ColumnOf(c, table[i])) else Err(IndexError)
  {
  }

  /** Where the lookups of `create_medals_detail` find the committee among the rows labelled "All". */
  lemma AllTimeLookup(table: seq<CommitteeOlympiadRow>, committee: string)
    ensures var allTime := ComputeDataByOlympics(table, All);
      var i := FirstIndex(allTime, OfCommittee(committee));
      && (i == |allTime| <==> forall x :: x in table ==> !(x.olympiad == All && x.committee == committee))
      && (i < |allTime| ==> Labelled(All, allTime[i]) in table && allTime[i].committee == committee)
  {
    var allTime := ComputeDataByOlympics(table, All);
    var i := FirstIndex(allTime, OfCommittee(committee));
    if i < |allTime| {
      assert allTime[i] in allTime;
    } else {
      forall x | x in table && x.olympiad == All ensures x.committee != committee {
        assert Labelled(All, DropOlympiad(x)) == x;
      }
    }
  }

  /**
   * The callback variant is the `medal_details` lookup run on the rows labelled
   * "All": the two differ only by that filter.
   */
  lemma CreateMedalsDetailSearchesAllTimeRows(table: seq<CommitteeOlympiadRow>, committee: string)
    ensures CreateMedalsDetail(table, committee) ==
            MedalDetails.CreateMedalsDetail(Filter(table, OfOlympiad(All)), committee)
  {
    var selected := Filter(table, OfOlympiad(All));
    var allTime := ComputeDataByOlympics(table, All);
    assert allTime == MapSeq(selected, DropOlympiad);
    FirstIndexOfMap(selected, DropOlympiad, OfCommittee(committee), MedalDetails.OfCommittee(committee));
    var i := FirstIndex(allTime, OfCommittee(committee));
    DetailOfFirstAllTimeRow(table, committee);
    if i < |allTime| {
      var m, x := allTime[i], selected[i];
      assert m == DropOlympiad(x);
      assert MedalDetails.CreateMedalsDetail(selected, committee) == Ok((x.total, x.gold, x.silver, x.bronze));
    } else {
      assert MedalDetails.CreateMedalsDetail(selected, committee) == Err(IndexError);
    }
  }

  /** The callback reads its four counts from the first all-time row of the committee. */
  lemma DetailOfFirstAllTimeRow(table: seq<CommitteeOlympiadRow>, committee: string)
    ensures var allTime := ComputeDataByOlympics(table, All);
      var i := FirstIndex(allTime, OfCommittee(committee));
      && (i < |allTime| ==>
            CreateMedalsDetail(table, committee) == Ok((allTime[i].total, allTime[i].gold, allTime[i].silver, allTime[i].bronze)))
      && (i == |allTime| ==> CreateMedalsDetail(table, committee) == Err(IndexError))
  {
  }

  /** `_count_medals`: the number of records of one medal type (the sum of the mask). */
  function CountMedals(records: seq<MedalRecord>, medalType: string): (n: nat)
    ensures n <= |records|
    ensures n == 0 <==> forall x :: x in records ==> x.medalType != medalType
    ensures n == |Filter(records, OfMedalType(medalType))|
  {
    var selected := Filter(records, OfMedalType(medalType));
    assert selected != [] ==> selected[0] in selected;
    CountWhere(records, OfMedalType(medalType))
  }

  /** `init_total_medals`: the number of records, then the gold, silver and bronze counts. */
  function TotalMedalsOf(records: seq<MedalRecord>): (t: MedalTotals)
    ensures t.total == |records|
    ensures t.gold == CountMedals(records, Gold)
    ensures t.silver == CountMedals(records, Silver)
    ensures t.bronze == CountMedals(records, Bronze)
  {
    MedalTotals(|records|, CountMedals(records, Gold), CountMedals(records, Silver), CountMedals(records, Bronze))
  }

  /**
   * When every record is a gold, silver or bronze medal, the three per-type
   * counts add up to the total.
   */
  lemma {:induction false} MedalTypesAddUpToTotal(records: seq<MedalRecord>)
    requires forall x :: x in records ==> x.medalType == Gold || x.medalType == Silver || x.medalType == Bronze
    ensures var t := TotalMedalsOf(records); t.gold + t.silver + t.bronze == t.total
  {
    if records != [] {
      assert records[0] in records;
      MedalTypesAddUpToTotal(records[1..]);
    }
  }

  /** The Taipy state the callbacks read and write. */
  class DashboardState {
    var olympicMedals: seq<MedalRecord>
    var groupedMedalsOlympics: seq<CommitteeOlympiadRow>
    var committeeDetail: string
    var totalMedalsDetail: int
    var goldMedalsDetail: int
    var silverMedalsDetail: int
    var bronzeMedalsDetail: int
    var medalTotals: MedalTotals

    constructor (olympicMedals: seq<MedalRecord>, groupedMedalsOlympics: seq<CommitteeOlympiadRow>, committeeDetail: string)
      ensures this.olympicMedals == olympicMedals
      ensures this.groupedMedalsOlympics == groupedMedalsOlympics
      ensures this.committeeDetail == committeeDetail
      ensures totalMedalsDetail == 0 && goldMedalsDetail == 0 && silverMedalsDetail == 0 && bronzeMedalsDetail == 0
      ensures medalTotals == MedalTotals(0, 0, 0, 0)
    {
      this.olympicMedals := olympicMedals;
      this.groupedMedalsOlympics := groupedMedalsOlympics;
      this.committeeDetail := committeeDetail;
      totalMedalsDetail, goldMedalsDetail, silverMedalsDetail, bronzeMedalsDetail := 0, 0, 0, 0;
      medalTotals := MedalTotals(0, 0, 0, 0);
    }

    /**
     * `on_selector_medals_by_committee`: the four detail cards get the selected
     * committee's all-time counts; when the lookup raises, no card is written.
     * The tables and the selection are left as they were.
     */
    method OnSelectorMedalsByCommittee() returns (r: Result<(int, int, int, int)>)
      modifies this
      ensures r == CreateMedalsDetail(old(groupedMedalsOlympics), old(committeeDetail))
      ensures r.Ok? ==> (totalMedalsDetail, goldMedalsDetail, silverMedalsDetail, bronzeMedalsDetail) == r.value
      ensures r.Err? ==> && totalMedalsDetail == old(totalMedalsDetail) && goldMedalsDetail == old(goldMedalsDetail)
                         && silverMedalsDetail == old(silverMedalsDetail) && bronzeMedalsDetail == old(bronzeMedalsDetail)
      ensures olympicMedals == old(olympicMedals) && groupedMedalsOlympics == old(groupedMedalsOlympics)
      ensures committeeDetail == old(committeeDetail) && medalTotals == old(medalTotals)
    {
      r := CreateMedalsDetail(groupedMedalsOlympics, committeeDetail);
      if r.Ok? {
        SetDetails(r.value);
      }
    }

    /** The tuple assignment to the four detail cards. */
    method SetDetails(detail: (int, int, int, int))
      modifies this`totalMedalsDetail, this`goldMedalsDetail, this`silverMedalsDetail, this`bronzeMedalsDetail
      ensures (totalMedalsDetail, goldMedalsDetail, silverMedalsDetail, bronzeMedalsDetail) == detail
    {
      totalMedalsDetail, goldMedalsDetail, silverMedalsDetail, bronzeMedalsDetail := detail.0, detail.1, detail.2, detail.3;
    }

    /** `init_total_medals`: the medal totals card gets the counts of the medal records. */
    method InitTotalMedals()
      modifies this`medalTotals
      ensures medalTotals == TotalMedalsOf(olympicMedals)
    {
      medalTotals := TotalMedalsOf(olympicMedals);
    }
  }
}
