/**
 The relational vocabulary the dashboards rely on, fixed as explicit definitions:
 a table is a sequence of records, a missing cell is `None`, and the dataframe
 operations used by the scripts (column selection, skipping missing values,
 boolean-mask filtering, whole-row de-duplication, `nunique`, `sum`, `mean`,
 `groupby`) are functions over sequences.
 */
module Tables {

  /** A cell that may be missing (pandas NaN / NaT). */
  datatype Option<+T> = None | Some(value: T)

  /** The values of one column, one per row and in row order. */
  function Column<T, V>(rows: seq<T>, f: T -> V): (c: seq<V>)
    ensures |c| == |rows|
    ensures forall i :: 0 <= i < |rows| ==> c[i] == f(rows[i])
  {
    seq(|rows|, i requires 0 <= i < |rows| => f(rows[i]))
  }

  lemma ColumnHas<T(!new), V(!new)>(rows: seq<T>, f: T -> V, v: V)
    ensures v in Column(rows, f) <==> exists x :: x in rows && f(x) == v
  {
    if v in Column(rows, f) {
      var i :| 0 <= i < |rows| && Column(rows, f)[i] == v;
      assert rows[i] in rows;
    }
    if exists x :: x in rows && f(x) == v {
      var x :| x in rows && f(x) == v;
      var i :| 0 <= i < |rows| && rows[i] == x;
      assert Column(rows, f)[i] == v;
    }
  }

  /** The first components of a sequence of pairs: the keys (index) of a series, the left rows of a join. */
  function Keys<K, V>(s: seq<(K, V)>): (ks: seq<K>)
    ensures |ks| == |s|
    ensures forall i :: 0 <= i < |s| ==> ks[i] == s[i].0
  {
    Column(s, (e: (K, V)) => e.0)
  }

  /** The non-missing values of a column, in order: what an aggregation sees after skipping NaN. */
  function Present<V(==,!new)>(c: seq<Option<V>>): (r: seq<V>)
    ensures |r| <= |c|
    ensures forall v :: v in r <==> Some(v) in c
  {
    if c == [] then []
    else
      var init := c[..|c| - 1];
      assert c == init + [c[|c| - 1]];
      Present(init) + (match c[|c| - 1] case Some(v) => [v] case None => [])
  }

  // ---------------------------------------------------------------------------
  // Boolean-mask filtering (`df[mask]`) and order-preserving sublists
  // ---------------------------------------------------------------------------

  /** `r` is obtained from `s` by deleting elements, keeping the order of the rest. */
  predicate Sublist<T(==,!new)>(r: seq<T>, s: seq<T>)
    decreases |s|
  {
    if r == [] then true
    else if s == [] then false
    else if r[|r| - 1] == s[|s| - 1] then Sublist(r[..|r| - 1], s[..|s| - 1])
    else Sublist(r, s[..|s| - 1])
  }

  /** The rows of `s` for which `p` holds, in their original order (`df[p(df)]`). */
  function Filter<T(==,!new)>(s: seq<T>, p: T -> bool): (r: seq<T>)
    ensures |r| <= |s|
    ensures forall x :: multiset(r)[x] == if p(x) then multiset(s)[x] else 0
  {
    if s == [] then []
    else
      var init, x := s[..|s| - 1], s[|s| - 1];
      assert s == init + [x];
      Filter(init, p) + (if p(x) then [x] else [])
  }

  lemma {:induction false} SublistAppend<T(!new)>(r: seq<T>, s: seq<T>, x: T)
    requires Sublist(r, s)
    ensures Sublist(r, s + [x])
    decreases |s|, 1
  {
    var s' := s + [x];
    assert s'[..|s'| - 1] == s;
    if r != [] && r[|r| - 1] == x {
      SublistDropLast(r, s);
    }
  }

  lemma {:induction false} SublistDropLast<T(!new)>(r: seq<T>, s: seq<T>)
    requires r != [] && Sublist(r, s)
    ensures Sublist(r[..|r| - 1], s)
    decreases |s|, 0
  {
    var r', s' := r[..|r| - 1], s[..|s| - 1];
    if r[|r| - 1] == s[|s| - 1] {
      assert Sublist(r', s');
      assert s == s' + [s[|s| - 1]];
      SublistAppend(r', s', s[|s| - 1]);
    } else {
      SublistDropLast(r, s');
      assert s == s' + [s[|s| - 1]];
      SublistAppend(r', s', s[|s| - 1]);
    }
  }

  /** A sublist of all but the last element extends by that element to a sublist of the whole. */
  lemma SublistKeepLast<T(!new)>(r: seq<T>, s: seq<T>)
    requires s != [] && Sublist(r, s[..|s| - 1])
    ensures Sublist(r + [s[|s| - 1]], s)
  {
    var r' := r + [s[|s| - 1]];
    assert r'[..|r'| - 1] == r;
  }

  /** A sublist of all but the last element is a sublist of the whole. */
  lemma SublistSkipLast<T(!new)>(r: seq<T>, s: seq<T>)
    requires s != [] && Sublist(r, s[..|s| - 1])
    ensures Sublist(r, s)
  {
    if r != [] && r[|r| - 1] == s[|s| - 1] {
      SublistDropLast(r, s[..|s| - 1]);
    }
  }

  /** A row of a filter is a row of its input that passes. */
  lemma FilterMember<T(!new)>(s: seq<T>, p: T -> bool, x: T)
    ensures x in Filter(s, p) <==> x in s && p(x)
  {
    assert x in Filter(s, p) <==> multiset(Filter(s, p))[x] > 0;
  }

  lemma FilterSnoc<T(!new)>(s: seq<T>, p: T -> bool)
    requires s != []
    ensures p(s[|s| - 1]) ==> Filter(s, p) == Filter(s[..|s| - 1], p) + [s[|s| - 1]]
    ensures !p(s[|s| - 1]) ==> Filter(s, p) == Filter(s[..|s| - 1], p)
  {
  }

  /** One more row of the input keeps the filter a sublist. */
  lemma FilterSublistStep<T(!new)>(s: seq<T>, p: T -> bool)
    requires s != [] && Sublist(Filter(s[..|s| - 1], p), s[..|s| - 1])
    ensures Sublist(Filter(s, p), s)
  {
    FilterSnoc(s, p);
    if p(s[|s| - 1]) {
      SublistKeepLast(Filter(s[..|s| - 1], p), s);
    } else {
      SublistSkipLast(Filter(s[..|s| - 1], p), s);
    }
  }

  /** Every filter is an order-preserving sublist of its input. */
  lemma {:induction false} FilterIsSublist<T(!new)>(s: seq<T>, p: T -> bool)
    ensures Sublist(Filter(s, p), s)
  {
    if s != [] {
      FilterIsSublist(s[..|s| - 1], p);
      FilterSublistStep(s, p);
    }
  }

  /** Deleting from a sublist gives a sublist: filters compose into sublists of the original. */
  lemma {:induction false} SublistTransitive<T(!new)>(a: seq<T>, b: seq<T>, c: seq<T>)
    requires Sublist(a, b) && Sublist(b, c)
    ensures Sublist(a, c)
    decreases |c|
  {
    if a != [] && b != [] && c != [] {
      var a', b', c' := a[..|a| - 1], b[..|b| - 1], c[..|c| - 1];
      assert c == c' + [c[|c| - 1]];
      if b[|b| - 1] == c[|c| - 1] {
        if a[|a| - 1] == b[|b| - 1] {
          SublistTransitive(a', b', c');
        } else {
          SublistTransitive(a, b', c');
        }
      } else {
        SublistTransitive(a, b, c');
        if a[|a| - 1] == c[|c| - 1] {
          SublistDropLast(a, c');
        }
      }
    }
  }
  /** A value as a present cell. */
  function Wrap<V>(v: V): Option<V> {
    Some(v)
  }

  lemma ColumnSnoc<T, V>(s: seq<T>, x: T, f: T -> V)
    ensures Column(s + [x], f) == Column(s, f) + [f(x)]
  {
  }

  lemma PresentSnoc<V(!new)>(init: seq<Option<V>>, x: Option<V>)
    ensures x.Some? ==> Present(init + [x]) == Present(init) + [x.value]
    ensures x.None? ==> Present(init + [x]) == Present(init)
  {
    assert (init + [x])[..|init|] == init;
    if x.None? {
      assert Present(init) + [] == Present(init);
    }
  }

  lemma SublistKeepBoth<T(!new)>(r: seq<T>, s: seq<T>, x: T)
    requires Sublist(r, s)
    ensures Sublist(r + [x], s + [x])
  {
    assert (r + [x])[..|r|] == r && (s + [x])[..|s|] == s;
  }

  lemma PresentOrderStep<V(!new)>(init: seq<Option<V>>, x: Option<V>)
    requires Sublist(Column(Present(init), Wrap), init)
    ensures Sublist(Column(Present(init + [x]), Wrap), init + [x])
  {
    var r := Present(init);
    PresentSnoc(init, x);
    match x
    case Some(v) =>
      ColumnSnoc(r, v, Wrap);
      SublistKeepBoth(Column(r, Wrap), init, x);
    case None =>
      SublistAppend(Column(r, Wrap), init, x);
  }

  lemma PresentCountStep<V(!new)>(init: seq<Option<V>>, x: Option<V>, v: V)
    requires multiset(Present(init))[v] == multiset(init)[Some(v)]
    ensures multiset(Present(init + [x]))[v] == multiset(init + [x])[Some(v)]
  {
    PresentSnoc(init, x);
    assert multiset(init + [x]) == multiset(init) + multiset{x};
  }

  /** `Present(c)` holds each value exactly as many times as the column holds it present. */
  lemma {:induction false} PresentCount<V(!new)>(c: seq<Option<V>>, v: V)
    ensures multiset(Present(c))[v] == multiset(c)[Some(v)]
  {
    if c != [] {
      var init, x := c[..|c| - 1], c[|c| - 1];
      assert c == init + [x];
      PresentCount(init, v);
      PresentCountStep(init, x, v);
    } else {
      assert Present(c) == [];
    }
  }

  /**
   The present values keep their column order: re-wrapped, they are a sublist of the column.
   With the multiplicities of `PresentCount` this fixes `Present(c)` completely.
   */
  lemma {:induction false} PresentInOrder<V(!new)>(c: seq<Option<V>>)
    ensures Sublist(Column(Present(c), Wrap), c)
  {
    if c != [] {
      var init, x := c[..|c| - 1], c[|c| - 1];
      assert c == init + [x];
      PresentInOrder(init);
      PresentOrderStep(init, x);
    } else {
      assert Column(Present(c), Wrap) == [];
    }
  }



  // ---------------------------------------------------------------------------
  // Whole-row de-duplication (`drop_duplicates()`, keep='first')
  // ---------------------------------------------------------------------------

  /** No value occurs twice. */
  predicate Distinct<T(==,!new)>(s: seq<T>) {
    forall i, j :: 0 <= i < j < |s| ==> s[i] != s[j]
  }

  /** The position of the first occurrence of `x` in `s`. */
  function FirstIndex<T(==,!new)>(s: seq<T>, x: T): (i: nat)
    requires x in s
    ensures i < |s| && s[i] == x && x !in s[..i]
  {
    if s[0] == x then 0
    else
      var i := 1 + FirstIndex(s[1..], x);
      assert s[..i] == [s[0]] + s[1..][..i - 1];
      i
  }

  /** The rows of `s` with every repeat of an earlier row removed. */
  function Dedup<T(==,!new)>(s: seq<T>): (r: seq<T>)
    ensures forall x :: x in r <==> x in s
    ensures Distinct(r)
    ensures |r| <= |s|
  {
    if s == [] then []
    else
      var init, x := s[..|s| - 1], s[|s| - 1];
      assert s == init + [x];
      var d := Dedup(init);
      if x in d then d else d + [x]
  }

  lemma FirstIndexOfPrefix<T(!new)>(s: seq<T>, x: T, y: T)
    requires y in s
    ensures FirstIndex(s + [x], y) == FirstIndex(s, y)
  {
    var t := s + [x];
    var i, j := FirstIndex(t, y), FirstIndex(s, y);
    assert forall k :: 0 <= k < i ==> t[..i][k] == t[k];
    assert forall k :: 0 <= k < j ==> s[..j][k] == s[k];
    assert t[j] == y;
    assert i <= j;
    assert t[i] == s[i];
  }

  /** De-duplication keeps the first occurrence of each row and the original order of those occurrences. */
  lemma {:induction false} DedupKeepsFirst<T(!new)>(s: seq<T>)
    ensures forall i, j :: 0 <= i < j < |Dedup(s)| ==> FirstIndex(s, Dedup(s)[i]) < FirstIndex(s, Dedup(s)[j])
  {
    if s != [] {
      var init, x := s[..|s| - 1], s[|s| - 1];
      assert s == init + [x];
      DedupKeepsFirst(init);
      var d := Dedup(init);
      forall y | y in d ensures FirstIndex(s, y) == FirstIndex(init, y) && FirstIndex(init, y) < |init| {
        FirstIndexOfPrefix(init, x, y);
      }
      if x !in d {
        assert FirstIndex(s, x) == |init| by {
          assert x !in init;
        }
      }
    }
  }

  // ---------------------------------------------------------------------------
  // Aggregations
  // ---------------------------------------------------------------------------

  /** The set of values in a column. */
  function ValueSet<V(==,!new)>(s: seq<V>): set<V> {
    set v | v in s
  }

  /** `nunique()`: the number of distinct values in a column. */
  function NUnique<V(==,!new)>(s: seq<V>): nat {
    |ValueSet(s)|
  }

  lemma {:induction false} SubsetCard<V(!new)>(a: set<V>, b: set<V>)
    requires a <= b
    ensures |a| <= |b|
    decreases a
  {
    if a != {} {
      var v :| v in a;
      SubsetCard(a - {v}, b - {v});
    }
  }

  /** `sum()` of integer cells. */
  function Sum(xs: seq<int>): int {
    if xs == [] then 0 else Sum(xs[..|xs| - 1]) + xs[|xs| - 1]
  }

  /** `mean()`: missing (`None`, pandas NaN) when there is nothing to average. */
  function Mean(xs: seq<int>): (m: Option<real>)
    ensures m.Some? <==> |xs| > 0
  {
    if xs == [] then None else Some(Sum(xs) as real / |xs| as real)
  }

  lemma {:induction false} SumBounds(xs: seq<int>, lo: int, hi: int)
    requires forall i :: 0 <= i < |xs| ==> lo <= xs[i] <= hi
    ensures |xs| * lo <= Sum(xs) <= |xs| * hi
  {
    if xs != [] {
      SumBounds(xs[..|xs| - 1], lo, hi);
    }
  }

  /** A mean lies between any lower and upper bound of the averaged values. */
  lemma MeanBounds(xs: seq<int>, lo: int, hi: int)
    requires |xs| > 0
    requires forall i :: 0 <= i < |xs| ==> lo <= xs[i] <= hi
    ensures lo as real <= Mean(xs).value <= hi as real
  {
    SumBounds(xs, lo, hi);
    var n := |xs| as real;
    var m := Mean(xs).value;
    assert m * n == Sum(xs) as real;
    assert n * (lo as real) <= m * n;
    assert m * n <= n * (hi as real);
  }

  /** `.round(2)` of an exact value: the nearest hundredth, a tie going to the even hundredth. */
  function Round2(x: real): (r: real)
    ensures -0.005 <= r - x <= 0.005
    ensures (r * 100.0).Floor as real == r * 100.0
    ensures (x * 100.0).Floor as real == x * 100.0 ==> r == x
  {
    var y := x * 100.0;
    var f := y.Floor;
    var d := y - f as real;
    var n := if d < 0.5 then f else if d > 0.5 then f + 1 else if f % 2 == 0 then f else f + 1;
    n as real / 100.0
  }

  // ---------------------------------------------------------------------------
  // groupby: missing keys belong to no group
  // ---------------------------------------------------------------------------

  /** The distinct non-missing keys of a table, in order of first appearance. */
  function GroupKeys<T, K(==,!new)>(rows: seq<T>, key: T -> Option<K>): (ks: seq<K>)
    ensures Distinct(ks)
    ensures forall k :: k in ks <==> Some(k) in Column(rows, key)
  {
    Dedup(Present(Column(rows, key)))
  }

  /** The rows of the group of key `k`. */
  function GroupRows<T(==,!new), K(==,!new)>(rows: seq<T>, key: T -> Option<K>, k: K): (g: seq<T>)
    ensures forall x :: multiset(g)[x] == if key(x) == Some(k) then multiset(rows)[x] else 0
  {
    Filter(rows, x => key(x) == Some(k))
  }

  /** A row belongs to the group of `k` exactly when it is in the table and its key is `k`. */
  lemma InGroup<T(!new), K(!new)>(rows: seq<T>, key: T -> Option<K>, k: K, x: T)
    ensures x in GroupRows(rows, key, k) <==> x in rows && key(x) == Some(k)
  {
    assert multiset(GroupRows(rows, key, k))[x] == if key(x) == Some(k) then multiset(rows)[x] else 0;
  }

  /**
   `groupby(key, sort=False).agg(...)`: one entry per distinct non-missing key, in order of
   first appearance, with the aggregate of its rows. The default key sort is added by
   `Ranking.SortedGroupBy`.
   */
  function GroupBy<T(==,!new), K(==,!new), V>(rows: seq<T>, key: T -> Option<K>, agg: seq<T> -> V): (r: seq<(K, V)>)
    ensures |r| == |GroupKeys(rows, key)|
    ensures forall i :: 0 <= i < |r| ==> r[i].0 == GroupKeys(rows, key)[i]
    ensures forall i :: 0 <= i < |r| ==> r[i].1 == agg(GroupRows(rows, key, r[i].0))
  {
    var ks := GroupKeys(rows, key);
    seq(|ks|, i requires 0 <= i < |ks| => (ks[i], agg(GroupRows(rows, key, ks[i]))))
  }

  /** The total number of rows in the groups of `ks`. */
  function GroupSizes<T(==,!new), K(==,!new)>(rows: seq<T>, key: T -> Option<K>, ks: seq<K>): nat {
    if ks == [] then 0 else GroupSizes(rows, key, ks[..|ks| - 1]) + |GroupRows(rows, key, ks[|ks| - 1])|
  }

  lemma GroupRowsSnoc<T(!new), K(!new)>(rows: seq<T>, key: T -> Option<K>, k: K, x: T)
    ensures |GroupRows(rows + [x], key, k)| == |GroupRows(rows, key, k)| + (if key(x) == Some(k) then 1 else 0)
  {
    assert (rows + [x])[..|rows|] == rows;
  }

  lemma {:induction false} GroupSizesSnoc<T(!new), K(!new)>(rows: seq<T>, key: T -> Option<K>, ks: seq<K>, x: T)
    requires Distinct(ks)
    ensures GroupSizes(rows + [x], key, ks) ==
            GroupSizes(rows, key, ks) + (if key(x).Some? && key(x).value in ks then 1 else 0)
  {
    if ks != [] {
      var init, k := ks[..|ks| - 1], ks[|ks| - 1];
      assert ks == init + [k];
      GroupSizesSnoc(rows, key, init, x);
      GroupRowsSnoc(rows, key, k, x);
    }
  }

  lemma {:induction false} GroupSizesOfEmpty<T(!new), K(!new)>(key: T -> Option<K>, ks: seq<K>)
    ensures GroupSizes([], key, ks) == 0
  {
    if ks != [] {
      GroupSizesOfEmpty(key, ks[..|ks| - 1]);
    }
  }

  /** Groups of distinct keys share no row: together they hold at most every row once. */
  lemma {:induction false} GroupSizesBound<T(!new), K(!new)>(rows: seq<T>, key: T -> Option<K>, ks: seq<K>)
    requires Distinct(ks)
    ensures GroupSizes(rows, key, ks) <= |rows|
  {
    if rows != [] {
      var init, x := rows[..|rows| - 1], rows[|rows| - 1];
      assert rows == init + [x];
      GroupSizesBound(init, key, ks);
      GroupSizesSnoc(init, key, ks, x);
    } else {
      GroupSizesOfEmpty(key, ks);
    }
  }

  /** When every row's key is listed, the groups of distinct keys hold every row exactly once. */
  lemma {:induction false} GroupSizesCover<T(!new), K(!new)>(rows: seq<T>, key: T -> Option<K>, ks: seq<K>)
    requires Distinct(ks)
    requires forall x :: x in rows ==> key(x).Some? && key(x).value in ks
    ensures GroupSizes(rows, key, ks) == |rows|
  {
    if rows != [] {
      var init, x := rows[..|rows| - 1], rows[|rows| - 1];
      assert rows == init + [x];
      assert forall y :: y in init ==> y in rows;
      GroupSizesCover(init, key, ks);
      GroupSizesSnoc(init, key, ks, x);
    } else {
      GroupSizesOfEmpty(key, ks);
    }
  }
}
