/**
 * Generic operations on tables represented as sequences of rows: boolean-mask
 * selection, counting, `unique` (distinct values in order of first appearance),
 * the ordering Python uses for strings, a stable sort, and group-by counts and
 * sums. The dashboard's data frames are sequences of typed rows; the index of
 * a row is its position in the sequence.
 */
module Tables {

  /** `r` lists elements of `s` in their relative order in `s`, possibly dropping some. */
  ghost predicate SubsequenceOf<T>(r: seq<T>, s: seq<T>)
    decreases |s|
  {
    if r == [] then true
    else if s == [] then false
    else (r[0] == s[0] && SubsequenceOf(r[1..], s[1..])) || SubsequenceOf(r, s[1..])
  }

  /** No value occurs twice. */
  predicate NoDup<T(==)>(s: seq<T>)
  {
    forall i, j :: 0 <= i < j < |s| ==> s[i] != s[j]
  }

  /** Number of rows that satisfy `p` (the sum of a boolean mask). */
  function CountWhere<T>(s: seq<T>, p: T -> bool): (n: nat)
    ensures n <= |s|
  {
    if s == [] then 0 else (if p(s[0]) then 1 else 0) + CountWhere(s[1..], p)
  }

  /** The rows of `s` that satisfy `keep`, in order: `df[mask]`. */
  function Filter<T(!new)>(s: seq<T>, keep: T -> bool): (r: seq<T>)
    ensures |r| == CountWhere(s, keep)
    ensures forall x :: x in r <==> x in s && keep(x)
    ensures forall x :: multiset(r)[x] == if keep(x) then multiset(s)[x] else 0
    ensures SubsequenceOf(r, s)
  {
    if s == [] then []
    else
      assert s == [s[0]] + s[1..];
      if keep(s[0]) then [s[0]] + Filter(s[1..], keep) else Filter(s[1..], keep)
  }

  /** A filter whose mask is true everywhere keeps the table as it is. */
  lemma {:induction false} FilterKeepsAll<T(!new)>(s: seq<T>, keep: T -> bool)
    requires forall x :: x in s ==> keep(x)
    ensures Filter(s, keep) == s
  {
    if s != [] {
      FilterKeepsAll(s[1..], keep);
    }
  }

  /** Selecting from two stacked tables is stacking the two selections. */
  lemma {:induction false} FilterConcat<T(!new)>(a: seq<T>, b: seq<T>, keep: T -> bool)
    ensures Filter(a + b, keep) == Filter(a, keep) + Filter(b, keep)
  {
    if a == [] {
      assert a + b == b;
    } else {
      assert (a + b)[1..] == a[1..] + b;
      FilterConcat(a[1..], b, keep);
    }
  }

  /** `[f(x) for x in s]` */
  function MapSeq<T, U>(s: seq<T>, f: T -> U): (r: seq<U>)
    ensures |r| == |s|
    ensures forall i :: 0 <= i < |s| ==> r[i] == f(s[i])
  {
    seq(|s|, i requires 0 <= i < |s| => f(s[i]))
  }

  /** The values of `[f(x) for x in s]` are exactly the images of the rows of `s`. */
  lemma MapSeqMembers<T, U>(s: seq<T>, f: T -> U)
    ensures forall y :: y in MapSeq(s, f) <==> exists x :: x in s && f(x) == y
  {
    var r := MapSeq(s, f);
    forall y | y in r ensures exists x :: x in s && f(x) == y {
      var i :| 0 <= i < |r| && r[i] == y;
      assert s[i] in s;
    }
    forall y | exists x :: x in s && f(x) == y ensures y in r {
      var x :| x in s && f(x) == y;
      var i :| 0 <= i < |s| && s[i] == x;
      assert r[i] == y;
    }
  }

  /** Counting with masks that agree on every row gives the same count. */
  lemma {:induction false} CountWhereSame<T>(s: seq<T>, p: T -> bool, q: T -> bool)
    requires forall x :: x in s ==> p(x) == q(x)
    ensures CountWhere(s, p) == CountWhere(s, q)
  {
    if s != [] {
      CountWhereSame(s[1..], p, q);
    }
  }

  /** A mask that holds on no row counts zero. */
  lemma {:induction false} CountWhereNone<T>(s: seq<T>, p: T -> bool)
    requires forall x :: x in s ==> !p(x)
    ensures CountWhere(s, p) == 0
  {
    if s != [] {
      CountWhereNone(s[1..], p);
    }
  }

  /** Counting the rows of a mapped table is counting the source rows whose image matches. */
  lemma {:induction false} CountWhereOfMap<T, U>(s: seq<T>, f: T -> U, p: U -> bool, q: T -> bool)
    requires forall x :: q(x) == p(f(x))
    ensures CountWhere(MapSeq(s, f), p) == CountWhere(s, q)
  {
    if s != [] {
      assert MapSeq(s, f)[1..] == MapSeq(s[1..], f);
      CountWhereOfMap(s[1..], f, p, q);
    }
  }

  /** Counting within a selection is counting the rows that pass both masks. */
  lemma {:induction false} CountWhereOfFilter<T(!new)>(s: seq<T>, keep: T -> bool, p: T -> bool, q: T -> bool)
    requires forall x :: q(x) == (keep(x) && p(x))
    ensures CountWhere(Filter(s, keep), p) == CountWhere(s, q)
  {
    if s != [] {
      CountWhereOfFilter(s[1..], keep, p, q);
    }
  }

  /** A mask that is the disjoint union of two others counts their sum. */
  lemma {:induction false} CountWhereSplit<T>(s: seq<T>, p: T -> bool, q: T -> bool, r: T -> bool)
    requires forall x :: p(x) == (q(x) || r(x))
    requires forall x :: !(q(x) && r(x))
    ensures CountWhere(s, p) == CountWhere(s, q) + CountWhere(s, r)
  {
    if s != [] {
      CountWhereSplit(s[1..], p, q, r);
    }
  }

  /** Position of the first row that satisfies `p`, or `|s|` when none does. */
  function FirstIndex<T>(s: seq<T>, p: T -> bool): (i: nat)
    ensures i <= |s|
    ensures i < |s| ==> p(s[i])
    ensures forall j :: 0 <= j < i ==> !p(s[j])
  {
    if s == [] then 0 else if p(s[0]) then 0 else 1 + FirstIndex(s[1..], p)
  }

  /** Searching mapped rows finds the row whose image matches. */
  lemma FirstIndexOfMap<T, U>(s: seq<T>, f: T -> U, p: U -> bool, q: T -> bool)
    requires forall x :: q(x) == p(f(x))
    ensures FirstIndex(MapSeq(s, f), p) == FirstIndex(s, q)
  {
    assert forall k :: 0 <= k < |s| ==> q(s[k]) == p(MapSeq(s, f)[k]);
  }

  /** Position of the first occurrence of `x` in `s`. */
  function IndexOf<T(==)>(s: seq<T>, x: T): (i: nat)
    requires x in s
    ensures i < |s| && s[i] == x && x !in s[..i]
  {
    if s[0] == x then 0 else 1 + IndexOf(s[1..], x)
  }

  /** `pd.Series.unique()`: each value once, in order of first appearance. */
  function Distinct<T(==,!new)>(s: seq<T>): (r: seq<T>)
    ensures NoDup(r)
    ensures forall x :: x in r <==> x in s
    decreases |s|
  {
    if s == [] then []
    else
      var d := Distinct(s[..|s| - 1]);
      assert s == s[..|s| - 1] + [s[|s| - 1]];
      if s[|s| - 1] in d then d else d + [s[|s| - 1]]
  }

  /** `unique()` of values that are already distinct is the values themselves. */
  lemma {:induction false} DistinctOfNoDup<T(!new)>(s: seq<T>)
    requires NoDup(s)
    ensures Distinct(s) == s
    decreases |s|
  {
    if s != [] {
      var init := s[..|s| - 1];
      assert NoDup(init) by {
        forall i, j | 0 <= i < j < |init| ensures init[i] != init[j] {
          assert s[i] != s[j];
        }
      }
      DistinctOfNoDup(init);
      assert s[|s| - 1] !in init by {
        forall i | 0 <= i < |init| ensures init[i] != s[|s| - 1] {
          assert s[i] != s[|s| - 1];
        }
      }
      assert s == init + [s[|s| - 1]];
    }
  }

  lemma {:induction false} IndexOfInPrefix<T>(s: seq<T>, y: T, x: T)
    requires x in s
    ensures IndexOf(s + [y], x) == IndexOf(s, x)
  {
    if s[0] != x {
      assert (s + [y])[1..] == s[1..] + [y];
      IndexOfInPrefix(s[1..], y, x);
    }
  }

  lemma {:induction false} IndexOfAppended<T>(s: seq<T>, y: T)
    requires y !in s
    ensures IndexOf(s + [y], y) == |s|
  {
    if s != [] {
      assert (s + [y])[1..] == s[1..] + [y];
      IndexOfAppended(s[1..], y);
    }
  }

  /** `unique()` lists values in the order in which they first appear. */
  lemma {:induction false} DistinctKeepsFirstAppearanceOrder<T(!new)>(s: seq<T>)
    ensures forall i, j :: 0 <= i < j < |Distinct(s)| ==>
              IndexOf(s, Distinct(s)[i]) < IndexOf(s, Distinct(s)[j])
    decreases |s|
  {
    if s != [] {
      var init, y := s[..|s| - 1], s[|s| - 1];
      assert s == init + [y];
      var d := Distinct(init);
      DistinctKeepsFirstAppearanceOrder(init);
      forall x | x in init
        ensures IndexOf(s, x) == IndexOf(init, x) < |init|
      {
        IndexOfInPrefix(init, y, x);
      }
      if y !in d {
        IndexOfAppended(init, y);
        assert Distinct(s) == d + [y];
      }
    }
  }

  /** Python's `<=` on strings: lexicographic by code point, a proper prefix first. */
  predicate StrLe(a: string, b: string)
  {
    |a| == 0 || (|b| > 0 && (a[0] < b[0] || (a[0] == b[0] && StrLe(a[1..], b[1..]))))
  }

  lemma {:induction false} StrLeTotal(a: string, b: string)
    ensures StrLe(a, b) || StrLe(b, a)
  {
    if |a| > 0 && |b| > 0 && a[0] == b[0] {
      StrLeTotal(a[1..], b[1..]);
    }
  }

  lemma {:induction false} StrLeTransitive(a: string, b: string, c: string)
    requires StrLe(a, b) && StrLe(b, c)
    ensures StrLe(a, c)
  {
    if |a| > 0 && a[0] == b[0] && b[0] == c[0] {
      StrLeTransitive(a[1..], b[1..], c[1..]);
    }
  }

  lemma {:induction false} StrLeAntisymmetric(a: string, b: string)
    requires StrLe(a, b) && StrLe(b, a)
    ensures a == b
  {
    if |a| > 0 {
      StrLeAntisymmetric(a[1..], b[1..]);
    }
  }

  /** The string order is total and transitive (quantified form for the sorts). */
  lemma StrLeIsTotalPreorder()
    ensures forall a, b :: StrLe(a, b) || StrLe(b, a)
    ensures forall a, b, c :: StrLe(a, b) && StrLe(b, c) ==> StrLe(a, c)
  {
    forall a, b ensures StrLe(a, b) || StrLe(b, a) {
      StrLeTotal(a, b);
    }
    forall a, b, c | StrLe(a, b) && StrLe(b, c) ensures StrLe(a, c) {
      StrLeTransitive(a, b, c);
    }
  }

  /** `le` compares any two values and is transitive: an order a sort can follow. */
  ghost predicate TotalPreorder<T(!new)>(le: (T, T) -> bool)
  {
    && (forall a, b :: le(a, b) || le(b, a))
    && (forall a, b, c :: le(a, b) && le(b, c) ==> le(a, c))
  }

  predicate SortedBy<T>(s: seq<T>, le: (T, T) -> bool)
  {
    forall i, j :: 0 <= i < j < |s| ==> le(s[i], s[j])
  }

  /** Inserts `x` after every element that is not greater than it (so ties keep their order). */
  function Insert<T(!new)>(s: seq<T>, x: T, le: (T, T) -> bool): (r: seq<T>)
    requires TotalPreorder(le) && SortedBy(s, le)
    ensures multiset(r) == multiset(s) + multiset{x}
    ensures SortedBy(r, le)
  {
    if s == [] then [x]
    else if !le(s[0], x) then
      assert forall k :: 0 <= k < |s| ==> le(x, s[k]) by {
        forall k | 0 <= k < |s| ensures le(x, s[k]) {
          if k > 0 { assert le(s[0], s[k]); }
        }
      }
      [x] + s
    else
      assert s == [s[0]] + s[1..];
      var rest := Insert(s[1..], x, le);
      assert forall y :: y in rest ==> le(s[0], y) by {
        forall y | y in rest ensures le(s[0], y) {
          assert y in multiset(rest);
          if y != x {
            assert y in s[1..];
          }
        }
      }
      [s[0]] + rest
  }

  /** A stable insertion sort: the result is ordered by `le` and a permutation of `s`. */
  function SortBy<T(!new)>(s: seq<T>, le: (T, T) -> bool): (r: seq<T>)
    requires TotalPreorder(le)
    ensures multiset(r) == multiset(s)
    ensures SortedBy(r, le)
  {
    if s == [] then []
    else
      assert s == s[..|s| - 1] + [s[|s| - 1]];
      Insert(SortBy(s[..|s| - 1], le), s[|s| - 1], le)
  }

  /** The elements that `le` ranks level with `y`: the ties of `y`. */
  function TiedWith<T>(le: (T, T) -> bool, y: T): T -> bool
  {
    (x: T) => le(x, y) && le(y, x)
  }

  /** Selecting from a row stacked on a table. */
  lemma FilterCons<T(!new)>(x: T, s: seq<T>, keep: T -> bool)
    ensures Filter([x] + s, keep) == (if keep(x) then [x] else []) + Filter(s, keep)
  {
    assert ([x] + s)[1..] == s;
  }

  /** Nothing in a sorted sequence whose head ranks above `x` is tied with `x`. */
  lemma NoTiesAboveHead<T(!new)>(s: seq<T>, x: T, le: (T, T) -> bool, y: T)
    requires TotalPreorder(le) && SortedBy(s, le)
    requires s != [] && !le(s[0], x) && TiedWith(le, y)(x)
    ensures Filter(s, TiedWith(le, y)) == []
  {
  }

  /** When `x` goes in front, no element before it is tied with it. */
  lemma InsertInFrontAfterTies<T(!new)>(s: seq<T>, x: T, le: (T, T) -> bool, y: T)
    requires TotalPreorder(le) && SortedBy(s, le)
    requires s == [] || !le(s[0], x)
    ensures Filter(Insert(s, x, le), TiedWith(le, y)) ==
            Filter(s, TiedWith(le, y)) + (if TiedWith(le, y)(x) then [x] else [])
  {
    var tied := TiedWith(le, y);
    assert Insert(s, x, le) == [x] + s;
    FilterCons(x, s, tied);
    if tied(x) && s != [] {
      NoTiesAboveHead(s, x, le, y);
    }
  }

  /** Inserting `x` into a sorted sequence puts it after every element tied with it. */
  lemma {:induction false} InsertAfterTies<T(!new)>(s: seq<T>, x: T, le: (T, T) -> bool, y: T)
    requires TotalPreorder(le) && SortedBy(s, le)
    ensures Filter(Insert(s, x, le), TiedWith(le, y)) ==
            Filter(s, TiedWith(le, y)) + (if TiedWith(le, y)(x) then [x] else [])
  {
    if s == [] || !le(s[0], x) {
      InsertInFrontAfterTies(s, x, le, y);
    } else {
      var tied := TiedWith(le, y);
      var tail := if tied(x) then [x] else [];
      assert s == [s[0]] + s[1..];
      var rest := Insert(s[1..], x, le);
      assert Insert(s, x, le) == [s[0]] + rest;
      var head := if tied(s[0]) then [s[0]] else [];
      calc {
        Filter(Insert(s, x, le), tied);
        { FilterCons(s[0], rest, tied); }
        head + Filter(rest, tied);
        { InsertAfterTies(s[1..], x, le, y); }
        head + (Filter(s[1..], tied) + tail);
        (head + Filter(s[1..], tied)) + tail;
        { FilterCons(s[0], s[1..], tied); }
        Filter(s, tied) + tail;
      }
    }
  }

  /** `SortBy` is stable: elements tied with one another keep their relative order. */
  lemma {:induction false} SortByKeepsTies<T(!new)>(s: seq<T>, le: (T, T) -> bool, y: T)
    requires TotalPreorder(le)
    ensures Filter(SortBy(s, le), TiedWith(le, y)) == Filter(s, TiedWith(le, y))
    decreases |s|
  {
    if s != [] {
      var init, last := s[..|s| - 1], s[|s| - 1];
      assert s == init + [last];
      var tied := TiedWith(le, y);
      var tail := if tied(last) then [last] else [];
      calc {
        Filter(SortBy(s, le), tied);
        { InsertAfterTies(SortBy(init, le), last, le, y); }
        Filter(SortBy(init, le), tied) + tail;
        { SortByKeepsTies(init, le, y); }
        Filter(init, tied) + tail;
        { FilterCons(last, [], tied); assert [last] + [] == [last]; }
        Filter(init, tied) + Filter([last], tied);
        { FilterConcat(init, [last], tied); }
        Filter(s, tied);
      }
    }
  }

  /**
   * The keys of a `groupby`: each distinct value once, in the order `le`
   * sorts them.
   */
  function SortedDistinct<T(==,!new)>(s: seq<T>, le: (T, T) -> bool): (r: seq<T>)
    requires TotalPreorder(le)
    ensures NoDup(r)
    ensures forall x :: x in r <==> x in s
    ensures SortedBy(r, le)
  {
    var distinct := Distinct(s);
    var sorted := SortBy(distinct, le);
    PermutationKeepsNoDup(distinct, sorted);
    assert forall x :: x in sorted <==> x in distinct by {
      forall x ensures x in sorted <==> x in distinct {
        assert x in sorted <==> x in multiset(sorted);
        assert x in distinct <==> x in multiset(distinct);
      }
    }
    sorted
  }

  lemma {:induction false} NoDupByMultiset<T>(s: seq<T>)
    ensures NoDup(s) <==> forall x :: multiset(s)[x] <= 1
  {
    if s != [] {
      NoDupByMultiset(s[1..]);
      assert s == [s[0]] + s[1..];
      if NoDup(s) {
        assert s[0] !in s[1..];
        assert NoDup(s[1..]) by {
          forall i, j | 0 <= i < j < |s[1..]| ensures s[1..][i] != s[1..][j] {
            assert s[i + 1] != s[j + 1];
          }
        }
      }
      if forall x :: multiset(s)[x] <= 1 {
        assert multiset(s) == multiset{s[0]} + multiset(s[1..]);
        assert multiset(s)[s[0]] <= 1;
        assert forall x :: multiset(s[1..])[x] <= multiset(s)[x];
        assert multiset(s[1..])[s[0]] == 0;
        forall i, j | 0 <= i < j < |s| ensures s[i] != s[j] {
          if i == 0 {
            assert s[j] in s[1..];
          } else {
            assert s[1..][i - 1] != s[1..][j - 1];
          }
        }
      }
    }
  }

  /** Reordering rows keeps them pairwise distinct. */
  lemma PermutationKeepsNoDup<T>(a: seq<T>, b: seq<T>)
    requires multiset(a) == multiset(b) && NoDup(a)
    ensures NoDup(b)
  {
    NoDupByMultiset(a);
    NoDupByMultiset(b);
  }

  lemma {:induction false} MapSeqConcat<T, U>(a: seq<T>, b: seq<T>, f: T -> U)
    ensures MapSeq(a + b, f) == MapSeq(a, f) + MapSeq(b, f)
  {
  }

  /** Removing the row at `i` removes one occurrence of it from the multiset. */
  lemma RemoveAt<T>(b: seq<T>, i: nat)
    requires i < |b|
    ensures b == b[..i] + [b[i]] + b[i + 1..]
    ensures multiset(b[..i] + b[i + 1..]) == multiset(b) - multiset{b[i]}
  {
    assert b == b[..i] + [b[i]] + b[i + 1..];
  }

  /** Permuting rows permutes their images. */
  lemma {:induction false} MultisetOfMap<T, U>(a: seq<T>, b: seq<T>, f: T -> U)
    requires multiset(a) == multiset(b)
    ensures multiset(MapSeq(a, f)) == multiset(MapSeq(b, f))
    decreases |a|
  {
    if a == [] {
      assert |b| == |multiset(b)| == 0;
    } else {
      var x := a[0];
      assert x in multiset(b);
      var i :| 0 <= i < |b| && b[i] == x;
      var left, right := b[..i], b[i + 1..];
      RemoveAt(b, i);
      assert a == [x] + a[1..];
      assert multiset(a[1..]) == multiset(a) - multiset{x};
      MultisetOfMap(a[1..], left + right, f);
      MapSeqConcat([x], a[1..], f);
      MapSeqConcat(left, right, f);
      MapSeqConcat(left + [x], right, f);
      MapSeqConcat(left, [x], f);
      assert b == (left + [x]) + right;
      assert MapSeq([x], f) == [f(x)];
      var fl, fr := MapSeq(left, f), MapSeq(right, f);
      assert MapSeq(b, f) == fl + [f(x)] + fr;
      assert MapSeq(left + right, f) == fl + fr;
      assert multiset(fl + [f(x)] + fr) == multiset(fl) + multiset{f(x)} + multiset(fr);
    }
  }

  /** Number of rows whose group key is `k`: `groupby(key).size()` for one group. */
  function CountKey<T, K(==)>(s: seq<T>, key: T -> K, k: K): (n: nat)
    ensures n <= |s|
  {
    if s == [] then 0 else (if key(s[0]) == k then 1 else 0) + CountKey(s[1..], key, k)
  }

  /** Sum of `val` over the rows whose group key is `k`: `groupby(key)[col].sum()` for one group. */
  function SumKey<T, K(==)>(s: seq<T>, key: T -> K, val: T -> int, k: K): int
  {
    if s == [] then 0 else (if key(s[0]) == k then val(s[0]) else 0) + SumKey(s[1..], key, val, k)
  }

  /** Sum of `val` over all rows. */
  function Sum<T>(s: seq<T>, val: T -> int): int
  {
    if s == [] then 0 else val(s[0]) + Sum(s[1..], val)
  }

  /** Sum of the group sizes of the groups listed in `ks`. */
  function GroupSizes<T, K(==)>(s: seq<T>, key: T -> K, ks: seq<K>): int
  {
    if ks == [] then 0 else CountKey(s, key, ks[0]) + GroupSizes(s, key, ks[1..])
  }

  /** Sum of the group sums of the groups listed in `ks`. */
  function GroupSums<T, K(==)>(s: seq<T>, key: T -> K, val: T -> int, ks: seq<K>): int
  {
    if ks == [] then 0 else SumKey(s, key, val, ks[0]) + GroupSums(s, key, val, ks[1..])
  }

  lemma {:induction false} GroupSizesCons<T, K>(x: T, s: seq<T>, key: T -> K, ks: seq<K>)
    requires NoDup(ks)
    ensures GroupSizes([x] + s, key, ks) == GroupSizes(s, key, ks) + (if key(x) in ks then 1 else 0)
  {
    if ks != [] {
      assert ([x] + s)[1..] == s;
      assert NoDup(ks[1..]) by {
        forall i, j | 0 <= i < j < |ks[1..]| ensures ks[1..][i] != ks[1..][j] {
          assert ks[i + 1] != ks[j + 1];
        }
      }
      assert key(x) in ks <==> key(x) == ks[0] || key(x) in ks[1..] by {
        assert ks == [ks[0]] + ks[1..];
      }
      GroupSizesCons(x, s, key, ks[1..]);
    }
  }

  lemma {:induction false} GroupSumsCons<T, K>(x: T, s: seq<T>, key: T -> K, val: T -> int, ks: seq<K>)
    requires NoDup(ks)
    ensures GroupSums([x] + s, key, val, ks) == GroupSums(s, key, val, ks) + (if key(x) in ks then val(x) else 0)
  {
    if ks != [] {
      assert ([x] + s)[1..] == s;
      assert NoDup(ks[1..]) by {
        forall i, j | 0 <= i < j < |ks[1..]| ensures ks[1..][i] != ks[1..][j] {
          assert ks[i + 1] != ks[j + 1];
        }
      }
      assert key(x) in ks <==> key(x) == ks[0] || key(x) in ks[1..] by {
        assert ks == [ks[0]] + ks[1..];
      }
      GroupSumsCons(x, s, key, val, ks[1..]);
    }
  }

  /** Counting by group loses no row: the group sizes of all groups add up to the row count. */
  lemma {:induction false} GroupSizesCoverAllRows<T, K>(s: seq<T>, key: T -> K, ks: seq<K>)
    requires NoDup(ks)
    requires forall x :: x in s ==> key(x) in ks
    ensures GroupSizes(s, key, ks) == |s|
  {
    if s == [] {
      GroupSizesOfNothing(key, ks);
    } else {
      assert s == [s[0]] + s[1..];
      GroupSizesCons(s[0], s[1..], key, ks);
      GroupSizesCoverAllRows(s[1..], key, ks);
    }
  }

  /** Summing by group loses nothing: the group sums of all groups add up to the column total. */
  lemma {:induction false} GroupSumsCoverAllRows<T, K>(s: seq<T>, key: T -> K, val: T -> int, ks: seq<K>)
    requires NoDup(ks)
    requires forall x :: x in s ==> key(x) in ks
    ensures GroupSums(s, key, val, ks) == Sum(s, val)
  {
    if s == [] {
      GroupSumsOfNothing(key, val, ks);
    } else {
      assert s == [s[0]] + s[1..];
      GroupSumsCons(s[0], s[1..], key, val, ks);
      GroupSumsCoverAllRows(s[1..], key, val, ks);
    }
  }

  lemma {:induction false} GroupSizesOfNothing<T, K>(key: T -> K, ks: seq<K>)
    ensures GroupSizes([], key, ks) == 0
  {
    if ks != [] {
      GroupSizesOfNothing(key, ks[1..]);
    }
  }

  lemma {:induction false} GroupSumsOfNothing<T, K>(key: T -> K, val: T -> int, ks: seq<K>)
    ensures GroupSums([], key, val, ks) == 0
  {
    if ks != [] {
      GroupSumsOfNothing(key, val, ks[1..]);
    }
  }

  lemma {:induction false} SumConcat<T>(a: seq<T>, b: seq<T>, val: T -> int)
    ensures Sum(a + b, val) == Sum(a, val) + Sum(b, val)
  {
    if a == [] {
      assert a + b == b;
    } else {
      assert (a + b)[1..] == a[1..] + b;
      SumConcat(a[1..], b, val);
    }
  }

  /** Reordering rows does not change a column total. */
  lemma {:induction false} SumPermutation<T>(a: seq<T>, b: seq<T>, val: T -> int)
    requires multiset(a) == multiset(b)
    ensures Sum(a, val) == Sum(b, val)
    decreases |a|
  {
    if a == [] {
      assert |b| == |multiset(b)| == 0;
    } else {
      var x := a[0];
      assert x in multiset(b);
      var i :| 0 <= i < |b| && b[i] == x;
      RemoveAt(b, i);
      assert a == [x] + a[1..];
      assert multiset(a[1..]) == multiset(a) - multiset{x};
      SumPermutation(a[1..], b[..i] + b[i + 1..], val);
      SumRemoveAt(b, i, val);
    }
  }

  /** A column total is the removed row's value plus the total of the remaining rows. */
  lemma SumRemoveAt<T>(b: seq<T>, i: nat, val: T -> int)
    requires i < |b|
    ensures Sum(b, val) == val(b[i]) + Sum(b[..i] + b[i + 1..], val)
  {
    var left, right := b[..i], b[i + 1..];
    assert b == (left + [b[i]]) + right;
    SumConcat(left + [b[i]], right, val);
    SumConcat(left, [b[i]], val);
    SumConcat(left, right, val);
    assert Sum([b[i]], val) == val(b[i]) + Sum([b[i]][1..], val);
  }
}
