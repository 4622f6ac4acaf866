/**
 * The dashboard's data model: the flat medal table, the pre-aggregated "wide"
 * tables it reads from files, the selector values and the failures that the
 * pandas code can raise.
 */
module Medals {
  import opened Tables

  /** One medal awarded: a row of the Olympic medals dataset. */
  datatype MedalRecord = MedalRecord(
    olympiad: string,    // Olympiad, e.g. "Paris 1924"
    year: int,           // Olympic_year
    season: string,      // Olympic_season: "summer" or "winter"
    committee: string,   // Committee
    discipline: string,  // Discipline
    event: string,       // Event
    gender: string,      // Gender: Men, Women, Open or Mixed
    medalType: string)   // Medal_type: Gold, Silver or Bronze

  /**
   * A row of the committee x olympiad table: the medals of one committee at one
   * Olympiad, or over all of them when the Olympiad label is "All".
   */
  datatype CommitteeOlympiadRow = CommitteeOlympiadRow(
    olympiad: string, committee: string, gold: int, silver: int, bronze: int, total: int)

  /**
   * A row of the year x olympiad table (one per season and medal type): its
   * Total_medals column and one column per committee.
   */
  datatype YearCommitteeRow = YearCommitteeRow(
    year: int, olympiad: string, season: string, medalType: string,
    totalMedals: real, byCommittee: map<string, real>)

  /** The year x olympiad table with its set of committee columns. */
  datatype YearCommitteeTable = YearCommitteeTable(committees: set<string>, rows: seq<YearCommitteeRow>)

  /** A data frame is rectangular: every row has a value in every committee column. */
  predicate Rectangular(t: YearCommitteeTable)
  {
    forall r :: r in t.rows ==> r.byCommittee.Keys == t.committees
  }

  /** The columns of the year x olympiad table other than the committee columns. */
  const YearTableColumns: set<string> := {"Olympic_year", "Olympiad", "Olympic_season", "Medal_type", "Total_medals"}

  /** A well-formed table: rectangular, and no committee column shadows another column. */
  predicate WellFormed(t: YearCommitteeTable)
  {
    Rectangular(t) && forall c :: c in t.committees ==> c !in YearTableColumns
  }

  /** A row of the host-city table with its four total_medals* columns. */
  datatype CityRow = CityRow(
    olympiad: string, year: int, season: string, country: string, isoCode: string,
    totalMedals: int, totalMedalsGold: int, totalMedalsSilver: int, totalMedalsBronze: int)

  datatype Option<T> = None | Some(value: T)

  /** A row of the per-olympiad medal count table, with its Medal_type_code column. */
  datatype OlympiadMedalCount = OlympiadMedalCount(
    olympiad: string, year: int, medalType: string, season: string,
    medalCount: nat, medalTypeCode: Option<nat>)

  /** The four counts shown on the medal cards. */
  datatype MedalTotals = MedalTotals(total: int, gold: int, silver: int, bronze: int)

  /** Exceptions the pandas code raises. */
  datatype Failure =
    | IndexError      // `.iloc[0]` on an empty selection
    | KeyError(missing: seq<string>)  // the requested columns the frame does not have
    | ValueError      // an invalid selector value

  datatype Result<T> = Ok(value: T) | Err(failure: Failure)

  /** Selector values. */
  const All := "All"
  const Summer := "summer"
  const Winter := "winter"
  const Gold := "Gold"
  const Silver := "Silver"
  const Bronze := "Bronze"

  /**
   * The selector pattern `df if sel == "All" else df[df[col] == sel]`: "All"
   * bypasses the filter, any other value keeps exactly the matching rows, in order.
   */
  function SelectUnlessAll<T(!new)>(s: seq<T>, selection: string, column: T -> string): (r: seq<T>)
    ensures selection == All ==> r == s
    ensures selection != All ==> forall x :: x in r <==> x in s && column(x) == selection
    ensures selection != All ==> forall x :: multiset(r)[x] == if column(x) == selection then multiset(s)[x] else 0
    ensures SubsequenceOf(r, s) && |r| <= |s|
  {
    if selection == All then
      assert SubsequenceOf(s, s) by { SubsequenceOfItself(s); }
      s
    else Filter(s, Matches(column, selection))
  }

  /** The mask `df[col] == selection`. */
  function Matches<T>(column: T -> string, selection: string): T -> bool
  {
    (x: T) => column(x) == selection
  }

  lemma {:induction false} SubsequenceOfItself<T>(s: seq<T>)
    ensures SubsequenceOf(s, s)
  {
    if s != [] {
      SubsequenceOfItself(s[1..]);
    }
  }

  /** The rows of one season: the mask `df["Olympic_season"] == season`. */
  function InSeason(season: string): MedalRecord -> bool
  {
    (x: MedalRecord) => x.season == season
  }

  /** The rows of one medal type: the mask `df["Medal_type"] == medalType`. */
  function OfMedalType(medalType: string): MedalRecord -> bool
  {
    (x: MedalRecord) => x.medalType == medalType
  }

  /** An Olympiad's position on a time axis: by year, then by label. */
  datatype YearOlympiad = YearOlympiad(year: int, olympiad: string)

  predicate YearOlympiadLe(a: YearOlympiad, b: YearOlympiad)
  {
    a.year < b.year || (a.year == b.year && StrLe(a.olympiad, b.olympiad))
  }

  lemma YearOlympiadOrder()
    ensures TotalPreorder(YearOlympiadLe)
  {
    StrLeIsTotalPreorder();
  }

  function YearOlympiadOf(x: MedalRecord): YearOlympiad
  {
    YearOlympiad(x.year, x.olympiad)
  }

  /**
   * The index of a `groupby`/`pivot_table` on (Olympic_year, Olympiad), or of
   * one on (Olympiad, Olympic_year) re-sorted with `sort_index(level=1)`:
   * each (year, Olympiad) pair of the rows once, ordered by year and then label.
   */
  function SortedKeys(s: seq<MedalRecord>): (keys: seq<YearOlympiad>)
    ensures NoDup(keys)
    ensures forall k :: k in keys <==> exists x :: x in s && YearOlympiadOf(x) == k
    ensures SortedBy(keys, YearOlympiadLe)
  {
    YearOlympiadOrder();
    MapSeqMembers(s, YearOlympiadOf);
    SortedDistinct(MapSeq(s, YearOlympiadOf), YearOlympiadLe)
  }

  /** Two sorted duplicate-free key lists with the same members are equal: the order is total. */
  lemma {:induction false} SortedKeysUnique(a: seq<YearOlympiad>, b: seq<YearOlympiad>)
    requires NoDup(a) && NoDup(b) && SortedBy(a, YearOlympiadLe) && SortedBy(b, YearOlympiadLe)
    requires forall k :: k in a <==> k in b
    ensures a == b
    decreases |a|
  {
    if a != [] {
      assert b != [] by { assert a[0] in b; }
      YearOlympiadAntisymmetric();
      assert a[0] == b[0] by {
        assert b[0] in a;
        assert a[0] in b;
        var i :| 0 <= i < |a| && a[i] == b[0];
        var j :| 0 <= j < |b| && b[j] == a[0];
        assert YearOlympiadLe(a[0], a[i]) || i == 0;
        assert YearOlympiadLe(b[0], b[j]) || j == 0;
      }
      assert a == [a[0]] + a[1..];
      assert b == [b[0]] + b[1..];
      assert a[0] !in a[1..] by {
        forall i | 1 <= i < |a| ensures a[i] != a[0] { }
      }
      assert b[0] !in b[1..] by {
        forall j | 1 <= j < |b| ensures b[j] != b[0] { }
      }
      assert NoDup(a[1..]) by {
        forall i, j | 0 <= i < j < |a[1..]| ensures a[1..][i] != a[1..][j] {
          assert a[i + 1] != a[j + 1];
        }
      }
      assert NoDup(b[1..]) by {
        forall i, j | 0 <= i < j < |b[1..]| ensures b[1..][i] != b[1..][j] {
          assert b[i + 1] != b[j + 1];
        }
      }
      assert SortedBy(a[1..], YearOlympiadLe) by {
        forall i, j | 0 <= i < j < |a[1..]| ensures YearOlympiadLe(a[1..][i], a[1..][j]) {
          assert YearOlympiadLe(a[i + 1], a[j + 1]);
        }
      }
      assert SortedBy(b[1..], YearOlympiadLe) by {
        forall i, j | 0 <= i < j < |b[1..]| ensures YearOlympiadLe(b[1..][i], b[1..][j]) {
          assert YearOlympiadLe(b[i + 1], b[j + 1]);
        }
      }
      forall k ensures k in a[1..] <==> k in b[1..] {
        assert k in a <==> k in b;
      }
      SortedKeysUnique(a[1..], b[1..]);
    } else {
      assert multiset(b) == multiset{} by {
        forall k ensures multiset(b)[k] == 0 {
          assert k !in b;
        }
      }
      assert |b| == |multiset(b)| == 0;
    }
  }

  lemma YearOlympiadAntisymmetric()
    ensures forall a, b :: YearOlympiadLe(a, b) && YearOlympiadLe(b, a) ==> a == b
  {
    forall a, b | YearOlympiadLe(a, b) && YearOlympiadLe(b, a) ensures a == b {
      StrLeAntisymmetric(a.olympiad, b.olympiad);
    }
  }
}
