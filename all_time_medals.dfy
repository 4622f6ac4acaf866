/**
 * The all-time medals page: the per-olympiad medal count table built once
 * from the medal records (one row per Olympiad, year, medal type and season,
 * ordered by year and then Bronze, Silver, Gold), and the summary cards.
 */
module AllTimeMedals {
  import opened Tables
  import opened Medals
  import Callbacks

  /** `medal_order`: the position of a medal type in the chart, Bronze first; other values have none (NaN). */
  function MedalOrder(medalType: string): (code: Option<nat>)
    ensures medalType == Bronze ==> code == Some(0)
    ensures medalType == Silver ==> code == Some(1)
    ensures medalType == Gold ==> code == Some(2)
    ensures code.None? <==> medalType != Bronze && medalType != Silver && medalType != Gold
  {
    if medalType == Bronze then Some(0)
    else if medalType == Silver then Some(1)
    else if medalType == Gold then Some(2)
    else None
  }

  /** The group key of `groupby(["Olympiad", "Olympic_year", "Medal_type", "Olympic_season"])`. */
  datatype GroupKey = GroupKey(olympiad: string, year: int, medalType: string, season: string)

  function KeyOf(x: MedalRecord): GroupKey
  {
    GroupKey(x.olympiad, x.year, x.medalType, x.season)
  }

  function RowKey(r: OlympiadMedalCount): GroupKey
  {
    GroupKey(r.olympiad, r.year, r.medalType, r.season)
  }

  /** The order of the group keys: field by field, in the order they are listed. */
  predicate GroupKeyLe(a: GroupKey, b: GroupKey)
  {
    if a.olympiad != b.olympiad then StrLe(a.olympiad, b.olympiad)
    else if a.year != b.year then a.year < b.year
    else if a.medalType != b.medalType then StrLe(a.medalType, b.medalType)
    else StrLe(a.season, b.season)
  }

  lemma GroupKeyOrder()
    ensures TotalPreorder(GroupKeyLe)
  {
    StrLeIsTotalPreorder();
    forall a, b, c | GroupKeyLe(a, b) && GroupKeyLe(b, c) ensures GroupKeyLe(a, c) {
      if a.olympiad != b.olympiad && b.olympiad != c.olympiad && a.olympiad == c.olympiad {
        StrLeAntisymmetric(a.olympiad, b.olympiad);
      }
      if a.olympiad == b.olympiad == c.olympiad && a.year == b.year == c.year
         && a.medalType != b.medalType && b.medalType != c.medalType && a.medalType == c.medalType {
        StrLeAntisymmetric(a.medalType, b.medalType);
      }
    }
  }

  /** The row of one group: its key, its size as Medal_count, and no code yet. */
  function GroupRow(records: seq<MedalRecord>): GroupKey -> OlympiadMedalCount
  {
    (k: GroupKey) => OlympiadMedalCount(k.olympiad, k.year, k.medalType, k.season, CountKey(records, KeyOf, k), None)
  }

  /** The sorted distinct group keys of the records. */
  function Keys(records: seq<MedalRecord>): (keys: seq<GroupKey>)
    ensures NoDup(keys)
    ensures forall k :: k in keys <==> exists x :: x in records && KeyOf(x) == k
    ensures SortedBy(keys, GroupKeyLe)
  {
    GroupKeyOrder();
    MapSeqMembers(records, KeyOf);
    SortedDistinct(MapSeq(records, KeyOf), GroupKeyLe)
  }

  /**
   * `groupby([...]).size().reset_index(name="Medal_count")`: one row per
   * (Olympiad, Olympic_year, Medal_type, Olympic_season) of the records, in key
   * order, counting the records of that group.
   */
  function GroupCounts(records: seq<MedalRecord>): (rows: seq<OlympiadMedalCount>)
    ensures MapSeq(rows, RowKey) == Keys(records)
    ensures forall r :: r in rows ==> r.medalCount == CountKey(records, KeyOf, RowKey(r)) && r.medalTypeCode.None?
  {
    var rows := MapSeq(Keys(records), GroupRow(records));
    assert MapSeq(rows, RowKey) == Keys(records);
    rows
  }

  /** The row with its Medal_type_code column filled in. */
  function WithCode(r: OlympiadMedalCount): OlympiadMedalCount
  {
    r.(medalTypeCode := MedalOrder(r.medalType))
  }

  /**
   * `df["Medal_type_code"] = df["Medal_type"].map(medal_order)`: the new column
   * is written into every row of the table in place; nothing else changes.
   */
  method AddMedalTypeCode(table: array<OlympiadMedalCount>)
    modifies table
    ensures table[..] == MapSeq(old(table[..]), WithCode)
  {
    forall i | 0 <= i < table.Length {
      table[i] := WithCode(table[i]);
    }
  }

  /** `Medal_type_code` ascending with NaN last, as `sort_values` places missing values. */
  predicate CodeLe(a: Option<nat>, b: Option<nat>)
  {
    match (a, b)
    case (Some(x), Some(y)) => x <= y
    case (Some(_), None) => true
    case (None, Some(_)) => false
    case (None, None) => true
  }

  /** `sort_values(by=["Olympic_year", "Medal_type_code"])`: by year, then by medal code. */
  predicate YearCodeLe(a: OlympiadMedalCount, b: OlympiadMedalCount)
  {
    a.year < b.year || (a.year == b.year && CodeLe(a.medalTypeCode, b.medalTypeCode))
  }

  lemma YearCodeOrder()
    ensures TotalPreorder(YearCodeLe)
  {
  }

  /** The finished `df_medals_by_olympiad`: the coded group rows sorted by year and medal code. */
  function MedalsByOlympiad(records: seq<MedalRecord>): (table: seq<OlympiadMedalCount>)
    ensures SortedBy(table, YearCodeLe)
    ensures multiset(table) == multiset(MapSeq(GroupCounts(records), WithCode))
  {
    YearCodeOrder();
    SortBy(MapSeq(GroupCounts(records), WithCode), YearCodeLe)
  }

  /**
   * The module-level pipeline of lines 41-58: group and count, add the code
   * column in place, sort, and renumber the index (a sequence is already
   * numbered 0..n-1).
   */
  method BuildMedalsByOlympiad(records: seq<MedalRecord>) returns (table: seq<OlympiadMedalCount>)
    ensures table == MedalsByOlympiad(records)
  {
    var groups := GroupCounts(records);
    var frame := new OlympiadMedalCount[|groups|](i requires 0 <= i < |groups| => groups[i]);
    assert frame[..] == groups;
    AddMedalTypeCode(frame);
    YearCodeOrder();
    table := SortBy(frame[..], YearCodeLe);
  }

  /**
   * Each group appears exactly once: the table's keys are the distinct
   * (Olympiad, year, medal type, season) keys of the records, each row
   * counts the records of its key and carries the code of its medal type.
   */
  lemma OneRowPerGroup(records: seq<MedalRecord>)
    ensures var table := MedalsByOlympiad(records);
      && NoDup(MapSeq(table, RowKey))
      && (forall k :: k in MapSeq(table, RowKey) <==> exists x :: x in records && KeyOf(x) == k)
      && (forall r :: r in table ==>
            r.medalCount == CountKey(records, KeyOf, RowKey(r)) && r.medalTypeCode == MedalOrder(r.medalType))
  {
    var groups := GroupCounts(records);
    var coded := MapSeq(groups, WithCode);
    assert MapSeq(coded, RowKey) == MapSeq(groups, RowKey);
    SortedKeysOfCodedGroups(records);
    SortedRowsAreCodedGroups(records);
  }

  /** The sorted table has the keys of the coded group rows, each once. */
  lemma SortedKeysOfCodedGroups(records: seq<MedalRecord>)
    ensures var table := MedalsByOlympiad(records);
      var coded := MapSeq(GroupCounts(records), WithCode);
      && NoDup(MapSeq(table, RowKey))
      && (forall k :: k in MapSeq(table, RowKey) <==> k in MapSeq(coded, RowKey))
  {
    var groups := GroupCounts(records);
    var coded := MapSeq(groups, WithCode);
    var table := MedalsByOlympiad(records);
    assert MapSeq(coded, RowKey) == MapSeq(groups, RowKey);
    MultisetOfMap(table, coded, RowKey);
    PermutationKeepsNoDup(MapSeq(coded, RowKey), MapSeq(table, RowKey));
    forall k ensures k in MapSeq(table, RowKey) <==> k in MapSeq(coded, RowKey) {
      assert k in MapSeq(table, RowKey) <==> k in multiset(MapSeq(table, RowKey));
      assert k in MapSeq(coded, RowKey) <==> k in multiset(MapSeq(coded, RowKey));
    }
  }

  /** Every row of the sorted table is a coded group row of the records. */
  lemma SortedRowsAreCodedGroups(records: seq<MedalRecord>)
    ensures forall r :: r in MedalsByOlympiad(records) ==>
      r.medalCount == CountKey(records, KeyOf, RowKey(r)) && r.medalTypeCode == MedalOrder(r.medalType)
  {
    var groups := GroupCounts(records);
    var coded := MapSeq(groups, WithCode);
    var table := MedalsByOlympiad(records);
    forall r | r in table
      ensures r.medalCount == CountKey(records, KeyOf, RowKey(r)) && r.medalTypeCode == MedalOrder(r.medalType)
    {
      assert r in multiset(coded);
      var i :| 0 <= i < |coded| && coded[i] == r;
      assert groups[i] in groups;
    }
  }

  /**
   * The two-column sort is stable: rows with the same year and medal code
   * keep the order the group-by gave them (by Olympiad label, then season).
   */
  lemma TiesKeepGroupOrder(records: seq<MedalRecord>, y: OlympiadMedalCount)
    ensures Filter(MedalsByOlympiad(records), TiedWith(YearCodeLe, y)) ==
            Filter(MapSeq(GroupCounts(records), WithCode), TiedWith(YearCodeLe, y))
  {
    YearCodeOrder();
    SortByKeepsTies(MapSeq(GroupCounts(records), WithCode), YearCodeLe, y);
  }

  function MedalCountOf(r: OlympiadMedalCount): int
  {
    r.medalCount
  }

  /** The group rows' counts add up to the group sizes of their keys. */
  lemma {:induction false} SumOfGroupRows(records: seq<MedalRecord>, ks: seq<GroupKey>)
    ensures Sum(MapSeq(MapSeq(ks, GroupRow(records)), WithCode), MedalCountOf) == GroupSizes(records, KeyOf, ks)
  {
    if ks != [] {
      assert MapSeq(MapSeq(ks, GroupRow(records)), WithCode)[1..] == MapSeq(MapSeq(ks[1..], GroupRow(records)), WithCode);
      SumOfGroupRows(records, ks[1..]);
    }
  }

  /** No record is lost or counted twice: the Medal_count column adds up to the number of records. */
  lemma MedalCountsAddUpToRecords(records: seq<MedalRecord>)
    ensures Sum(MedalsByOlympiad(records), MedalCountOf) == |records|
  {
    var keys := Keys(records);
    var coded := MapSeq(GroupCounts(records), WithCode);
    assert GroupCounts(records) == MapSeq(keys, GroupRow(records));
    SumPermutation(MedalsByOlympiad(records), coded, MedalCountOf);
    SumOfGroupRows(records, keys);
    GroupSizesCoverAllRows(records, KeyOf, keys);
  }

  /**
   * The summary cards: the Gold, Silver and Bronze cards count the records of
   * that type (`df[df["Medal_type"] == m]["Medal_type"].count()`), the total card
   * counts all records.
   */
  function SummaryCards(records: seq<MedalRecord>): (t: MedalTotals)
    ensures t.total == |records|
    ensures t.gold == |Filter(records, OfMedalType(Gold))|
    ensures t.silver == |Filter(records, OfMedalType(Silver))|
    ensures t.bronze == |Filter(records, OfMedalType(Bronze))|
  {
    MedalTotals(|records|, |Filter(records, OfMedalType(Gold))|,
      |Filter(records, OfMedalType(Silver))|, |Filter(records, OfMedalType(Bronze))|)
  }

  /** The page's cards and the totals set by `init_total_medals` show the same four numbers. */
  lemma SummaryCardsMatchTotals(records: seq<MedalRecord>)
    ensures SummaryCards(records) == Callbacks.TotalMedalsOf(records)
  {
  }
}
