/**
 * The "Percentage" display mode shared by the committee time series: each
 * listed committee column is replaced, one column at a time, by
 * `(column * 100 / Total_medals).fillna(0)`.
 */
module Percentages {
  import opened Tables

  /** The selector value that turns counts into percentages; any other value keeps counts. */
  const PercentageMode := "Percentage"

  /** A row of a committee time series: year, Olympiad label and one value per committee column. */
  datatype SeriesRow = SeriesRow(year: int, olympiad: string, values: map<string, real>)

  /**
   * `value * 100 / total` with pandas' 0/0 (NaN) replaced by 0 through `fillna(0)`.
   * A nonzero value over a zero total would be inf, which the callers never produce.
   */
  function Percent(value: real, total: real): (r: real)
    requires total != 0.0 || value == 0.0
    ensures total != 0.0 ==> ScaledBy(r, value, total)
    ensures total == 0.0 ==> r == 0.0
  {
    if total == 0.0 then 0.0 else value * 100.0 / total
  }

  /** `after` is `before` scaled by 100 / `total`, stated without division. */
  predicate ScaledBy(after: real, before: real, total: real)
  {
    after * total == before * 100.0
  }

  /**
   * Column `c` exists in every row, and converting it never divides a nonzero
   * value by a zero total.
   */
  predicate ColumnConvertible(rows: seq<SeriesRow>, totals: seq<real>, c: string)
  {
    && |totals| == |rows|
    && forall i :: 0 <= i < |rows| ==>
         c in rows[i].values && (totals[i] != 0.0 || rows[i].values[c] == 0.0)
  }

  /** Every listed committee column can be converted. */
  predicate Convertible(rows: seq<SeriesRow>, totals: seq<real>, committees: seq<string>)
  {
    && |totals| == |rows|
    && forall c :: c in committees ==> ColumnConvertible(rows, totals, c)
  }

  /** One pass of the loop body: column `c` of every row becomes a percentage of that row's total. */
  function ConvertColumn(rows: seq<SeriesRow>, totals: seq<real>, c: string): (r: seq<SeriesRow>)
    requires ColumnConvertible(rows, totals, c)
    ensures |r| == |rows|
    ensures forall i :: 0 <= i < |rows| ==>
              r[i] == rows[i].(values := rows[i].values[c := Percent(rows[i].values[c], totals[i])])
  {
    seq(|rows|, i requires 0 <= i < |rows| =>
      rows[i].(values := rows[i].values[c := Percent(rows[i].values[c], totals[i])]))
  }

  /**
   * The table after the loop has run over `cs`: the columns are converted in
   * list order, so a committee listed twice is converted twice.
   */
  function ConvertColumns(rows: seq<SeriesRow>, totals: seq<real>, cs: seq<string>): (r: seq<SeriesRow>)
    requires Convertible(rows, totals, cs)
    ensures |r| == |rows|
    ensures forall i :: 0 <= i < |rows| ==>
              && r[i].year == rows[i].year && r[i].olympiad == rows[i].olympiad
              && r[i].values.Keys == rows[i].values.Keys
              && (totals[i] == 0.0 ==> forall c :: c in cs ==> r[i].values[c] == 0.0)
              && (forall c :: c in rows[i].values && c !in cs ==> r[i].values[c] == rows[i].values[c])
    decreases |cs|
  {
    if cs == [] then rows
    else
      var init, last := cs[..|cs| - 1], cs[|cs| - 1];
      assert cs == init + [last];
      var prev := ConvertColumns(rows, totals, init);
      assert ColumnConvertible(rows, totals, last);
      ConvertColumn(prev, totals, last)
  }

  /**
   * `_compute_percentage`: the loop over the committee list that rewrites one
   * column per iteration; the result is the converted table.
   */
  method ComputePercentage(rows: seq<SeriesRow>, totals: seq<real>, committees: seq<string>)
    returns (converted: seq<SeriesRow>)
    requires Convertible(rows, totals, committees)
    ensures converted == ConvertColumns(rows, totals, committees)
  {
    converted := rows;
    for k := 0 to |committees|
      invariant Convertible(rows, totals, committees[..k])
      invariant converted == ConvertColumns(rows, totals, committees[..k])
    {
      var c := committees[k];
      assert committees[..k + 1] == committees[..k] + [c];
      assert ColumnConvertible(rows, totals, c);
      converted := ConvertColumn(converted, totals, c);
    }
    assert committees[..|committees|] == committees;
  }

  /**
   * With each committee listed once, every listed column holds the percentage of
   * its original value, and every other column is untouched.
   */
  lemma {:induction false} ConvertColumnsValues(rows: seq<SeriesRow>, totals: seq<real>, cs: seq<string>)
    requires Convertible(rows, totals, cs) && NoDup(cs)
    ensures forall i, c :: 0 <= i < |rows| && c in cs ==>
              ConvertColumns(rows, totals, cs)[i].values[c] == Percent(rows[i].values[c], totals[i])
    decreases |cs|
  {
    if cs != [] {
      var init, last := cs[..|cs| - 1], cs[|cs| - 1];
      assert cs == init + [last];
      assert NoDup(init) by {
        forall i, j | 0 <= i < j < |init| ensures init[i] != init[j] {
          assert cs[i] != cs[j];
        }
      }
      assert last !in init by {
        forall k | 0 <= k < |init| ensures init[k] != last {
          assert cs[k] != cs[|cs| - 1];
        }
      }
      ConvertColumnsValues(rows, totals, init);
    }
  }

  /** Sum of a row's values over the listed columns. */
  function SumOver(values: map<string, real>, cs: seq<string>): (total: real)
    requires forall c :: c in cs ==> c in values
    ensures (forall c :: c in cs ==> values[c] >= 0.0) ==> total >= 0.0
  {
    if cs == [] then 0.0 else values[cs[0]] + SumOver(values, cs[1..])
  }

  /** Non-negative values that sum to zero are all zero. */
  lemma {:induction false} ZeroSumMeansZeroValues(values: map<string, real>, cs: seq<string>)
    requires forall c :: c in cs ==> c in values && values[c] >= 0.0
    requires SumOver(values, cs) == 0.0
    ensures forall c :: c in cs ==> values[c] == 0.0
  {
    if cs != [] {
      assert cs == [cs[0]] + cs[1..];
      ZeroSumMeansZeroValues(values, cs[1..]);
    }
  }

  /** Converting every listed value scales their sum by 100 / total. */
  lemma {:induction false} SumOfPercents(before: map<string, real>, after: map<string, real>, total: real, cs: seq<string>)
    requires forall c :: c in cs ==> c in before && c in after && ScaledBy(after[c], before[c], total)
    ensures ScaledBy(SumOver(after, cs), SumOver(before, cs), total)
  {
    if cs != [] {
      var a, b := after[cs[0]], before[cs[0]];
      var sa, sb := SumOver(after, cs[1..]), SumOver(before, cs[1..]);
      SumOfPercents(before, after, total, cs[1..]);
      ScaledSums(a, sa, b, sb, total);
    }
  }

  lemma ScaledSums(a: real, sa: real, b: real, sb: real, t: real)
    requires ScaledBy(a, b, t) && ScaledBy(sa, sb, t)
    ensures ScaledBy(a + sa, b + sb, t)
  {
  }

  lemma CancelFactor(s: real, t: real)
    requires t != 0.0 && ScaledBy(s, t, t)
    ensures s == 100.0
  {
    assert (s - 100.0) * t == 0.0;
  }

  /**
   * The percentages of a row whose total is the sum of its listed values add up
   * to 100 when that total is positive.
   */
  lemma PercentsAddUpTo100(before: map<string, real>, after: map<string, real>, cs: seq<string>)
    requires forall c :: c in cs ==> c in before && c in after
    requires SumOver(before, cs) > 0.0
    requires forall c :: c in cs ==> after[c] == Percent(before[c], SumOver(before, cs))
    ensures SumOver(after, cs) == 100.0
  {
    var t := SumOver(before, cs);
    forall c | c in cs ensures ScaledBy(after[c], before[c], t) {
    }
    SumOfPercents(before, after, t, cs);
    CancelFactor(SumOver(after, cs), t);
  }
}
