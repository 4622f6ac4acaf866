/**
 * `MedalMap`: the medals won at the Olympics each country hosted, per host
 * country, for the choropleth map. The medal selector picks one of the four
 * `total_medals*` columns of the host-city table, the season selector filters
 * its rows, and the selected column is summed per (Country, ISO_code_mapping).
 */
module OlympicMap {
  import opened Tables
  import opened Medals

  /** The four medal columns of the host-city table. */
  datatype MedalColumn = TotalMedals | TotalMedalsGold | TotalMedalsSilver | TotalMedalsBronze

  /** The column's name in the host-city table. */
  function ColumnName(c: MedalColumn): string
  {
    match c
    case TotalMedals => "total_medals"
    case TotalMedalsGold => "total_medals_gold"
    case TotalMedalsSilver => "total_medals_silver"
    case TotalMedalsBronze => "total_medals_bronze"
  }

  /** The column read from a host-city row. */
  function ColumnValue(c: MedalColumn): CityRow -> int
  {
    (r: CityRow) =>
      match c
      case TotalMedals => r.totalMedals
      case TotalMedalsGold => r.totalMedalsGold
      case TotalMedalsSilver => r.totalMedalsSilver
      case TotalMedalsBronze => r.totalMedalsBronze
  }

  /**
   * `_select_medal_column`: the selector values "All", "Gold", "Silver" and
   * "Bronze" name the total, gold, silver and bronze columns; anything else is
   * a ValueError.
   */
  function SelectMedalColumn(medalType: string): (r: Result<MedalColumn>)
    ensures r.Ok? <==> medalType == All || medalType == Gold || medalType == Silver || medalType == Bronze
    ensures r.Err? ==> r.failure == ValueError
    ensures medalType == All ==> r.Ok? && ColumnName(r.value) == "total_medals"
    ensures medalType == Gold ==> r.Ok? && ColumnName(r.value) == "total_medals_gold"
    ensures medalType == Silver ==> r.Ok? && ColumnName(r.value) == "total_medals_silver"
    ensures medalType == Bronze ==> r.Ok? && ColumnName(r.value) == "total_medals_bronze"
  {
    if medalType == All then Ok(TotalMedals)
    else if medalType == Gold then Ok(TotalMedalsGold)
    else if medalType == Silver then Ok(TotalMedalsSilver)
    else if medalType == Bronze then Ok(TotalMedalsBronze)
    else Err(ValueError)
  }

  /** The selector value that picks a column. */
  function MedalTypeOf(c: MedalColumn): string
  {
    match c
    case TotalMedals => All
    case TotalMedalsGold => Gold
    case TotalMedalsSilver => Silver
    case TotalMedalsBronze => Bronze
  }

  /** The selector values and the columns correspond one to one. */
  lemma SelectMedalColumnIsBijective(c: MedalColumn, medalType: string)
    ensures SelectMedalColumn(MedalTypeOf(c)) == Ok(c)
    ensures SelectMedalColumn(medalType).Ok? ==> MedalTypeOf(SelectMedalColumn(medalType).value) == medalType
  {
  }

  /** The group key: a host country and its ISO code. */
  datatype CountryKey = CountryKey(country: string, isoCode: string)

  function CountryKeyOf(r: CityRow): CountryKey
  {
    CountryKey(r.country, r.isoCode)
  }

  /** The order of the group keys: by country name, then by ISO code. */
  predicate CountryKeyLe(a: CountryKey, b: CountryKey)
  {
    if a.country != b.country then StrLe(a.country, b.country) else StrLe(a.isoCode, b.isoCode)
  }

  lemma CountryKeyOrder()
    ensures TotalPreorder(CountryKeyLe)
  {
    StrLeIsTotalPreorder();
    forall a, b, c | CountryKeyLe(a, b) && CountryKeyLe(b, c) ensures CountryKeyLe(a, c) {
      if a.country != b.country && b.country != c.country && a.country == c.country {
        StrLeAntisymmetric(a.country, b.country);
      }
    }
  }

  /** A row of the result: a host country, its ISO code and its "Number of Medals". */
  datatype CountryCount = CountryCount(country: string, isoCode: string, medals: int)

  function CountKeyOf(r: CountryCount): CountryKey
  {
    CountryKey(r.country, r.isoCode)
  }

  function MedalsOf(r: CountryCount): int
  {
    r.medals
  }

  function SeasonOf(r: CityRow): string
  {
    r.season
  }

  /** The season filter: "All" keeps every row, any other season its own rows. */
  function SeasonRows(cities: seq<CityRow>, season: string): (r: seq<CityRow>)
    ensures season == All ==> r == cities
    ensures season != All ==> forall x :: x in r <==> x in cities && x.season == season
    ensures season != All ==> forall x :: multiset(r)[x] == if x.season == season then multiset(cities)[x] else 0
    ensures SubsequenceOf(r, cities)
  {
    SelectUnlessAll(cities, season, SeasonOf)
  }

  /** The result row of one group: the column summed over the group's rows. */
  function GroupRow(filtered: seq<CityRow>, c: MedalColumn): CountryKey -> CountryCount
  {
    (k: CountryKey) => CountryCount(k.country, k.isoCode, SumKey(filtered, CountryKeyOf, ColumnValue(c), k))
  }

  /**
   * `_compute_medal_counts`: a ValueError for a bad medal selector; otherwise
   * one row per (Country, ISO_code_mapping) of the season's rows, each once
   * and in sorted order, holding the selected column summed over that group.
   */
  function ComputeMedalCounts(cities: seq<CityRow>, season: string, medalType: string): (r: Result<seq<CountryCount>>)
    ensures r.Err? <==> SelectMedalColumn(medalType).Err?
    ensures r.Err? ==> r.failure == ValueError
    ensures r.Ok? ==>
              var filtered := SeasonRows(cities, season);
              var c := SelectMedalColumn(medalType).value;
              && NoDup(MapSeq(r.value, CountKeyOf))
              && SortedBy(MapSeq(r.value, CountKeyOf), CountryKeyLe)
              && (forall k :: k in MapSeq(r.value, CountKeyOf) <==> exists x :: x in filtered && CountryKeyOf(x) == k)
              && (forall row :: row in r.value ==>
                    row.medals == SumKey(filtered, CountryKeyOf, ColumnValue(c), CountKeyOf(row)))
  {
    match SelectMedalColumn(medalType)
    case Err(f) => Err(f)
    case Ok(c) =>
      var filtered := SeasonRows(cities, season);
      CountryKeyOrder();
      MapSeqMembers(filtered, CountryKeyOf);
      var keys := SortedDistinct(MapSeq(filtered, CountryKeyOf), CountryKeyLe);
      var rows := MapSeq(keys, GroupRow(filtered, c));
      assert MapSeq(rows, CountKeyOf) == keys;
      Ok(rows)
  }

  /**
   * `_generate_medal_counts`: the computed table, or the empty table when the
   * computation raises.
   */
  function GenerateMedalCounts(cities: seq<CityRow>, season: string, medalType: string): (r: seq<CountryCount>)
    ensures SelectMedalColumn(medalType).Err? ==> r == []
    ensures SelectMedalColumn(medalType).Ok? ==> r == ComputeMedalCounts(cities, season, medalType).value
  {
    match ComputeMedalCounts(cities, season, medalType)
    case Ok(rows) => rows
    case Err(_) => []
  }

  /** Summing the per-group rows adds up the group sums of their keys. */
  lemma {:induction false} SumOfGroupRows(filtered: seq<CityRow>, c: MedalColumn, ks: seq<CountryKey>)
    ensures Sum(MapSeq(ks, GroupRow(filtered, c)), MedalsOf) == GroupSums(filtered, CountryKeyOf, ColumnValue(c), ks)
  {
    if ks != [] {
      assert MapSeq(ks, GroupRow(filtered, c))[1..] == MapSeq(ks[1..], GroupRow(filtered, c));
      SumOfGroupRows(filtered, c, ks[1..]);
    }
  }

  /**
   * No medal is lost or counted twice: the "Number of Medals" of all host
   * countries add up to the selected column summed over the season's rows.
   */
  lemma MedalCountsConserveTotal(cities: seq<CityRow>, season: string, medalType: string)
    requires SelectMedalColumn(medalType).Ok?
    ensures Sum(ComputeMedalCounts(cities, season, medalType).value, MedalsOf) ==
            Sum(SeasonRows(cities, season), ColumnValue(SelectMedalColumn(medalType).value))
  {
    var c := SelectMedalColumn(medalType).value;
    var filtered := SeasonRows(cities, season);
    CountryKeyOrder();
    MapSeqMembers(filtered, CountryKeyOf);
    var keys := SortedDistinct(MapSeq(filtered, CountryKeyOf), CountryKeyLe);
    assert ComputeMedalCounts(cities, season, medalType).value == MapSeq(keys, GroupRow(filtered, c));
    SumOfGroupRows(filtered, c, keys);
    GroupSumsCoverAllRows(filtered, CountryKeyOf, ColumnValue(c), keys);
  }
}
