/**
 * The committee medal lookup of `medal_details.py`: the Total, Gold, Silver
 * and Bronze medals of one committee, read from the first row of the
 * committee x olympiad table that names it. This variant searches every row,
 * whatever its Olympiad label.
 */
module MedalDetails {
  import opened Tables
  import opened Medals

  /** The four medal columns a lookup can read. */
  datatype DetailColumn = TotalColumn | GoldColumn | SilverColumn | BronzeColumn

  function ColumnOf(c: DetailColumn, r: CommitteeOlympiadRow): int
  {
    match c
    case TotalColumn => r.total
    case GoldColumn => r.gold
    case SilverColumn => r.silver
    case BronzeColumn => r.bronze
  }

  /** The mask `df["Committee"] == committee`. */
  function OfCommittee(committee: string): CommitteeOlympiadRow -> bool
  {
    (r: CommitteeOlympiadRow) => r.committee == committee
  }

  /**
   * `_get_medal_count`: the column of the first row of the committee; an
   * IndexError when no row names it (`.iloc[0]` of an empty selection).
   */
  function GetMedalCount(table: seq<CommitteeOlympiadRow>, column: DetailColumn, committee: string): (r: Result<int>)
    ensures r.Err? <==> forall x :: x in table ==> x.committee != committee
    ensures r.Err? ==> r.failure == IndexError
    ensures r.Ok? ==> var i := FirstIndex(table, OfCommittee(committee));
              i < |table| && r.value == ColumnOf(column, table[i])
  {
    var i := FirstIndex(table, OfCommittee(committee));
    if i == |table| then
      assert forall x :: x in table ==> x.committee != committee by {
        forall x | x in table ensures x.committee != committee {
          var k :| 0 <= k < |table| && table[k] == x;
          assert !OfCommittee(committee)(table[k]);
        }
      }
      Err(IndexError)
    else
      Ok(ColumnOf(column, table[i]))
  }

  /**
   * `create_medals_detail`: (Total, Gold, Silver, Bronze) of the committee, all
   * four from its first row, or the IndexError of the first lookup.
   */
  function CreateMedalsDetail(table: seq<CommitteeOlympiadRow>, committee: string): (r: Result<(int, int, int, int)>)
    ensures r.Err? <==> forall x :: x in table ==> x.committee != committee
    ensures r.Err? ==> r.failure == IndexError
    ensures r.Ok? ==> var i := FirstIndex(table, OfCommittee(committee));
              i < |table| && r.value == (table[i].total, table[i].gold, table[i].silver, table[i].bronze)
  {
    var i := FirstIndex(table, OfCommittee(committee));
    LookupsReadFirstRow(table, committee);
    var total := GetMedalCount(table, TotalColumn, committee);
    // The four lookups select the same rows, so they fail or succeed together.
    if total.Err? then Err(total.failure)
    else
      var gold := GetMedalCount(table, GoldColumn, committee).value;
      var silver := GetMedalCount(table, SilverColumn, committee).value;
      var bronze := GetMedalCount(table, BronzeColumn, committee).value;
      Ok((total.value, gold, silver, bronze))
  }

  /** Each of the four lookups reads its column from the committee's first row, or fails when there is none. */
  lemma LookupsReadFirstRow(table: seq<CommitteeOlympiadRow>, committee: string)
    ensures var i := FirstIndex(table, OfCommittee(committee));
      forall c :: GetMedalCount(table, c, committee) == if i < |table| then Ok(ColumnOf(c, table[i])) else Err(IndexError)
  {
  }

  /** A committee with a single row gets exactly that row's four counts. */
  lemma DetailOfOnlyRow(table: seq<CommitteeOlympiadRow>, x: CommitteeOlympiadRow)
    requires x in table
    requires forall y :: y in table && y.committee == x.committee ==> y == x
    ensures CreateMedalsDetail(table, x.committee) == Ok((x.total, x.gold, x.silver, x.bronze))
  {
  }
}
