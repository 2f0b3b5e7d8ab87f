/**
 Ranking of aggregated series: `sort_values(ascending=False)` followed by `head(n)`,
 and the label shortening `index.str[:w] + "..."` applied before plotting.
 Only the order of values is specified; the order among equal values is left open,
 because the default sort is not stable.
 */
module Ranking {
  import opened Tables

  /** A numeric aggregate as a pandas float series holds it: a number, or NaN (`None`). */
  type Score = Option<real>

  /** `a` may come before `b` in a descending sort; NaN sorts last (`na_position='last'`). */
  predicate AtLeast(a: Score, b: Score) {
    match b
    case None => true
    case Some(y) => a.Some? && a.value >= y
  }

  /** Values never increase along the series. */
  predicate NonIncreasing<K>(s: seq<(K, Score)>) {
    forall i, j :: 0 <= i < j < |s| ==> AtLeast(s[i].1, s[j].1)
  }

  function Min(a: nat, b: nat): nat {
    if a <= b then a else b
  }

  /** `head(n)`: the first `n` entries, or all of them when there are fewer. */
  function Head<T>(s: seq<T>, n: nat): (r: seq<T>)
    ensures |r| == Min(n, |s|)
    ensures r <= s
  {
    s[..Min(n, |s|)]
  }

  lemma NonIncreasingTail<K>(s: seq<(K, Score)>)
    requires s != [] && NonIncreasing(s)
    ensures NonIncreasing(s[1..])
    ensures forall j :: 0 <= j < |s[1..]| ==> AtLeast(s[0].1, s[1..][j].1)
  {
    forall i, j | 0 <= i < j < |s[1..]| ensures AtLeast(s[1..][i].1, s[1..][j].1) {
      assert AtLeast(s[i + 1].1, s[j + 1].1);
    }
    forall j | 0 <= j < |s[1..]| ensures AtLeast(s[0].1, s[1..][j].1) {
      assert AtLeast(s[0].1, s[j + 1].1);
    }
  }

  /** Putting the head back in front of the tail with `e` inserted keeps the values non-increasing. */
  lemma InsertBelowHead<K>(e: (K, Score), s: seq<(K, Score)>, rest: seq<(K, Score)>)
    requires s != [] && NonIncreasing(rest) && !AtLeast(e.1, s[0].1)
    requires multiset(rest) == multiset(s[1..]) + multiset{e}
    requires forall j :: 0 <= j < |s[1..]| ==> AtLeast(s[0].1, s[1..][j].1)
    ensures NonIncreasing([s[0]] + rest)
    ensures multiset([s[0]] + rest) == multiset(s) + multiset{e}
  {
    forall j | 0 <= j < |rest| ensures AtLeast(s[0].1, rest[j].1) {
      assert rest[j] in multiset(rest);
      if rest[j] != e {
        assert rest[j] in multiset(s[1..]);
        var k :| 0 <= k < |s[1..]| && s[1..][k] == rest[j];
      }
    }
    forall i, j | 0 <= i < j < |[s[0]] + rest| ensures AtLeast(([s[0]] + rest)[i].1, ([s[0]] + rest)[j].1) {
      assert ([s[0]] + rest)[j] == rest[j - 1];
      if i > 0 {
        assert ([s[0]] + rest)[i] == rest[i - 1];
      }
    }
    assert s == [s[0]] + s[1..];
  }

  function Insert<K(==)>(e: (K, Score), s: seq<(K, Score)>): (r: seq<(K, Score)>)
    requires NonIncreasing(s)
    ensures NonIncreasing(r)
    ensures multiset(r) == multiset(s) + multiset{e}
  {
    if s == [] then [e]
    else if AtLeast(e.1, s[0].1) then
      [e] + s
    else
      NonIncreasingTail(s);
      var rest := Insert(e, s[1..]);
      InsertBelowHead(e, s, rest);
      [s[0]] + rest
  }

  /** `sort_values(ascending=False)`: a permutation of the series with values non-increasing. */
  function SortDesc<K(==)>(s: seq<(K, Score)>): (r: seq<(K, Score)>)
    ensures NonIncreasing(r)
    ensures multiset(r) == multiset(s)
    ensures |r| == |s|
  {
    if s == [] then []
    else
      assert s == [s[0]] + s[1..];
      Insert(s[0], SortDesc(s[1..]))
  }

  lemma DistinctCount<T(!new)>(s: seq<T>, x: T)
    requires Distinct(s)
    ensures multiset(s)[x] <= 1
  {
    if s != [] {
      var init := s[..|s| - 1];
      assert s == init + [s[|s| - 1]];
      DistinctCount(init, x);
      if x == s[|s| - 1] {
        assert x !in init;
      }
    }
  }

  lemma TwiceCount<T(!new)>(s: seq<T>, i: nat, j: nat)
    requires i < j < |s| && s[i] == s[j]
    ensures multiset(s)[s[i]] >= 2
  {
    assert s == s[..j] + s[j..];
    assert s[..j][i] == s[i];
    assert s[j..][0] == s[i];
  }

  /** Sorting does not duplicate a key: a series with a unique index keeps it. */
  lemma PermutationKeepsKeysDistinct<K(!new)>(g: seq<(K, Score)>, t: seq<(K, Score)>)
    requires multiset(t) == multiset(g)
    requires Distinct(Keys(g))
    ensures Distinct(Keys(t))
  {
    assert Distinct(g);
    forall i, j | 0 <= i < j < |t| ensures t[i].0 != t[j].0 {
      assert t[i] in multiset(g) && t[j] in multiset(g);
      var p :| 0 <= p < |g| && g[p] == t[i];
      var q :| 0 <= q < |g| && g[q] == t[j];
      if t[i].0 == t[j].0 {
        assert Keys(g)[p] == Keys(g)[q];
        DistinctCount(g, g[p]);
        TwiceCount(t, i, j);
      }
    }
  }

  /** `groupby(key).agg(...).sort_values(ascending=False)`. */
  function RankGroups<T(==,!new), K(==,!new)>(rows: seq<T>, key: T -> Option<K>, agg: seq<T> -> Score): seq<(K, Score)> {
    SortDesc(GroupBy(rows, key, agg))
  }

  /** `head(n)` of a non-increasing series keeps the order, and no later entry ranks above a kept one. */
  lemma HeadOfRanked<K>(s: seq<(K, Score)>, n: nat)
    requires NonIncreasing(s)
    ensures NonIncreasing(Head(s, n))
    ensures forall j, i :: n <= j < |s| && 0 <= i < |Head(s, n)| ==> AtLeast(Head(s, n)[i].1, s[j].1)
  {
    var h := Head(s, n);
    forall j, i | n <= j < |s| && 0 <= i < |h| ensures AtLeast(h[i].1, s[j].1) {
      assert h[i] == s[i];
    }
    forall i, j | 0 <= i < j < |h| ensures AtLeast(h[i].1, h[j].1) {
      assert h[i] == s[i] && h[j] == s[j];
    }
  }

  /** A ranked aggregate has one entry per group, values non-increasing. */
  lemma RankGroupsShape<T(!new), K(!new)>(rows: seq<T>, key: T -> Option<K>, agg: seq<T> -> Score)
    ensures NonIncreasing(RankGroups(rows, key, agg))
    ensures |RankGroups(rows, key, agg)| == |GroupKeys(rows, key)|
  {
  }

  /** A permutation of a series has the same keys. */
  lemma PermutationSameKeys<K(!new), V(!new)>(g: seq<(K, V)>, t: seq<(K, V)>, k: K)
    requires multiset(t) == multiset(g)
    ensures k in Keys(t) <==> k in Keys(g)
  {
    if k in Keys(t) {
      var i :| 0 <= i < |t| && Keys(t)[i] == k;
      assert t[i] in multiset(g);
      var j :| 0 <= j < |g| && g[j] == t[i];
      assert Keys(g)[j] == k;
    }
    if k in Keys(g) {
      var j :| 0 <= j < |g| && Keys(g)[j] == k;
      assert g[j] in multiset(t);
      var i :| 0 <= i < |t| && t[i] == g[j];
      assert Keys(t)[i] == k;
    }
  }

  lemma RankGroupsKey<T(!new), K(!new)>(rows: seq<T>, key: T -> Option<K>, agg: seq<T> -> Score, k: K)
    ensures k in Keys(RankGroups(rows, key, agg)) <==> exists x :: x in rows && key(x) == Some(k)
  {
    var g := GroupBy(rows, key, agg);
    PermutationSameKeys(g, RankGroups(rows, key, agg), k);
    assert Keys(g) == GroupKeys(rows, key);
    ColumnHas(rows, key, Some(k));
  }

  lemma RankGroupsEntry<T(!new), K(!new)>(rows: seq<T>, key: T -> Option<K>, agg: seq<T> -> Score, e: (K, Score))
    requires e in RankGroups(rows, key, agg)
    ensures e.1 == agg(GroupRows(rows, key, e.0))
  {
    var g := GroupBy(rows, key, agg);
    assert e in multiset(g);
    var j :| 0 <= j < |g| && g[j] == e;
  }

  /**
   A ranked aggregate has one entry per distinct non-missing key of the table, each holding
   the aggregate of that key's rows, with values non-increasing.
   */
  lemma RankGroupsSpec<T(!new), K(!new)>(rows: seq<T>, key: T -> Option<K>, agg: seq<T> -> Score)
    ensures NonIncreasing(RankGroups(rows, key, agg))
    ensures Distinct(Keys(RankGroups(rows, key, agg)))
    ensures |RankGroups(rows, key, agg)| == |GroupKeys(rows, key)|
    ensures forall k :: k in Keys(RankGroups(rows, key, agg)) <==> exists x :: x in rows && key(x) == Some(k)
    ensures forall e :: e in RankGroups(rows, key, agg) ==> e.1 == agg(GroupRows(rows, key, e.0))
  {
    var g := GroupBy(rows, key, agg);
    assert Distinct(Keys(g)) by {
      assert Keys(g) == GroupKeys(rows, key);
    }
    PermutationKeepsKeysDistinct(g, RankGroups(rows, key, agg));
    forall k ensures k in Keys(RankGroups(rows, key, agg)) <==> exists x :: x in rows && key(x) == Some(k) {
      RankGroupsKey(rows, key, agg, k);
    }
    forall e | e in RankGroups(rows, key, agg) ensures e.1 == agg(GroupRows(rows, key, e.0)) {
      RankGroupsEntry(rows, key, agg, e);
    }
  }

  /** `key[:width] + "..."`: the axis label of a plotted entry. */
  function Label(key: string, width: nat): (l: string)
    ensures |l| == Min(width, |key|) + 3
    ensures l[..|l| - 3] <= key
    ensures l[|l| - 3..] == "..."
  {
    key[..Min(width, |key|)] + "..."
  }

  /** Replaces every key of a series by its label; values and order are unchanged. */
  function Labelled(s: seq<(string, Score)>, width: nat): (r: seq<(string, Score)>)
    ensures |r| == |s|
    ensures forall i :: 0 <= i < |s| ==> r[i] == (Label(s[i].0, width), s[i].1)
    ensures NonIncreasing(s) ==> NonIncreasing(r)
  {
    Column(s, (e: (string, Score)) => (Label(e.0, width), e.1))
  }

  /** `groupby(key).agg(...).sort_values(ascending=False).head(n)`. */
  function TopGroups<T(==,!new), K(==,!new)>(rows: seq<T>, key: T -> Option<K>, agg: seq<T> -> Score, n: nat): seq<(K, Score)> {
    Head(RankGroups(rows, key, agg), n)
  }

  lemma PrefixMember<T>(r: seq<T>, t: seq<T>, e: T)
    requires r <= t && e in r
    ensures e in t
  {
    var i :| 0 <= i < |r| && r[i] == e;
    assert t[i] == e;
  }

  /** A prefix of a series with a unique index has a unique index. */
  lemma PrefixKeysDistinct<K(!new), V>(r: seq<(K, V)>, t: seq<(K, V)>)
    requires r <= t && Distinct(Keys(t))
    ensures Distinct(Keys(r))
  {
    forall i, j | 0 <= i < j < |r| ensures Keys(r)[i] != Keys(r)[j] {
      assert Keys(t)[i] == Keys(r)[i] && Keys(t)[j] == Keys(r)[j];
    }
  }

  lemma TopGroupsEntry<T(!new), K(!new)>(rows: seq<T>, key: T -> Option<K>, agg: seq<T> -> Score, n: nat, e: (K, Score))
    requires e in TopGroups(rows, key, agg, n)
    ensures (exists x :: x in rows && key(x) == Some(e.0)) && e.1 == agg(GroupRows(rows, key, e.0))
  {
    var t := RankGroups(rows, key, agg);
    PrefixMember(TopGroups(rows, key, agg, n), t, e);
    RankGroupsEntry(rows, key, agg, e);
    assert e.0 in Keys(t) by {
      var i :| 0 <= i < |t| && t[i] == e;
      assert Keys(t)[i] == e.0;
    }
    RankGroupsKey(rows, key, agg, e.0);
  }

  lemma TopGroupsEntries<T(!new), K(!new)>(rows: seq<T>, key: T -> Option<K>, agg: seq<T> -> Score, n: nat)
    ensures Distinct(Keys(TopGroups(rows, key, agg, n)))
    ensures forall e :: e in TopGroups(rows, key, agg, n) ==>
              (exists x :: x in rows && key(x) == Some(e.0)) && e.1 == agg(GroupRows(rows, key, e.0))
  {
    RankGroupsSpec(rows, key, agg);
    PrefixKeysDistinct(TopGroups(rows, key, agg, n), RankGroups(rows, key, agg));
    forall e | e in TopGroups(rows, key, agg, n)
      ensures (exists x :: x in rows && key(x) == Some(e.0)) && e.1 == agg(GroupRows(rows, key, e.0))
    {
      TopGroupsEntry(rows, key, agg, n, e);
    }
  }

  lemma TopGroupsDominate<T(!new), K(!new)>(rows: seq<T>, key: T -> Option<K>, agg: seq<T> -> Score, n: nat, k: K, i: nat)
    requires exists x :: x in rows && key(x) == Some(k)
    requires k !in Keys(TopGroups(rows, key, agg, n))
    requires i < |TopGroups(rows, key, agg, n)|
    ensures AtLeast(TopGroups(rows, key, agg, n)[i].1, agg(GroupRows(rows, key, k)))
  {
    var t := RankGroups(rows, key, agg);
    var r := TopGroups(rows, key, agg, n);
    var m := Min(n, |t|);
    RankGroupsSpec(rows, key, agg);
    assert r == t[..m];
    assert k in Keys(t);
    var j :| 0 <= j < |t| && Keys(t)[j] == k;
    forall q | 0 <= q < m ensures Keys(r)[q] != k {
      assert r[q] == t[q];
      assert Keys(r)[q] == r[q].0 && Keys(t)[q] == t[q].0;
      assert Keys(r)[q] in Keys(r);
    }
    assert j >= m;
    assert t[j] in t;
    assert t[i] == r[i] && t[j].1 == agg(GroupRows(rows, key, k));
  }

  /**
   The top `n` groups: as many as asked for or as there are keys, values non-increasing, each
   key present once with the aggregate of its rows, and no key left out ranks above a kept one.
   */
  lemma TopGroupsSpec<T(!new), K(!new)>(rows: seq<T>, key: T -> Option<K>, agg: seq<T> -> Score, n: nat)
    ensures |TopGroups(rows, key, agg, n)| == Min(n, |GroupKeys(rows, key)|)
    ensures NonIncreasing(TopGroups(rows, key, agg, n))
    ensures Distinct(Keys(TopGroups(rows, key, agg, n)))
    ensures forall e :: e in TopGroups(rows, key, agg, n) ==>
              (exists x :: x in rows && key(x) == Some(e.0)) && e.1 == agg(GroupRows(rows, key, e.0))
    ensures forall k, i :: ((exists x :: x in rows && key(x) == Some(k)) && k !in Keys(TopGroups(rows, key, agg, n)) &&
              0 <= i < |TopGroups(rows, key, agg, n)|) ==>
              AtLeast(TopGroups(rows, key, agg, n)[i].1, agg(GroupRows(rows, key, k)))
  {
    RankGroupsSpec(rows, key, agg);
    TopGroupsEntries(rows, key, agg, n);
    forall k, i | (exists x :: x in rows && key(x) == Some(k)) && k !in Keys(TopGroups(rows, key, agg, n)) &&
                  0 <= i < |TopGroups(rows, key, agg, n)|
      ensures AtLeast(TopGroups(rows, key, agg, n)[i].1, agg(GroupRows(rows, key, k)))
    {
      TopGroupsDominate(rows, key, agg, n, k, i);
    }
  }

  /** The bar a ranked chart shows for key `k`: its shortened label and its group's aggregate. */
  function Bar<T(==,!new)>(rows: seq<T>, key: T -> Option<string>, agg: seq<T> -> Score, k: string, width: nat): (string, Score) {
    (Label(k, width), agg(GroupRows(rows, key, k)))
  }

  /** `b` is the bar of some present key. */
  ghost predicate IsBar<T(!new)>(rows: seq<T>, key: T -> Option<string>, agg: seq<T> -> Score, width: nat, b: (string, Score)) {
    exists k :: k in GroupKeys(rows, key) && b == Bar(rows, key, agg, k, width)
  }

  lemma ChartEntry<T(!new)>(rows: seq<T>, key: T -> Option<string>, agg: seq<T> -> Score, n: nat, width: nat, i: nat)
    requires i < |TopGroups(rows, key, agg, n)|
    ensures IsBar(rows, key, agg, width, Labelled(TopGroups(rows, key, agg, n), width)[i])
  {
    var t := TopGroups(rows, key, agg, n);
    TopGroupsEntries(rows, key, agg, n);
    assert t[i] in t;
    ColumnHas(rows, key, Some(t[i].0));
    assert Labelled(t, width)[i] == Bar(rows, key, agg, t[i].0, width);
  }

  /** What `TopGroupsSpec` states of a top-`n` ranking `t`, keyed by the groups' own keys. */
  ghost predicate IsTop<T(!new), K(!new)>(rows: seq<T>, key: T -> Option<K>, agg: seq<T> -> Score, n: nat, t: seq<(K, Score)>) {
    && |t| == Min(n, |GroupKeys(rows, key)|)
    && NonIncreasing(t)
    && Distinct(Keys(t))
    && (forall e :: e in t ==> (exists x :: x in rows && key(x) == Some(e.0)) && e.1 == agg(GroupRows(rows, key, e.0)))
    && (forall k, i :: ((exists x :: x in rows && key(x) == Some(k)) && k !in Keys(t) && 0 <= i < |t|) ==>
          AtLeast(t[i].1, agg(GroupRows(rows, key, k))))
  }

  lemma TopGroupsIsTop<T(!new), K(!new)>(rows: seq<T>, key: T -> Option<K>, agg: seq<T> -> Score, n: nat)
    ensures IsTop(rows, key, agg, n, TopGroups(rows, key, agg, n))
  {
    TopGroupsSpec(rows, key, agg, n);
  }

  /**
   What a top-`n` bar chart of `agg` by `key` shows: min(n, keys) bars, values non-increasing,
   each bar the label and aggregate of a present key, and the bars are a top-`n` ranking of the
   keys themselves, relabelled: every key left out ranks no higher than each bar.
   */
  ghost predicate ChartShape<T(!new)>(rows: seq<T>, key: T -> Option<string>, agg: seq<T> -> Score, n: nat, width: nat, r: seq<(string, Score)>) {
    && |r| == Min(n, |GroupKeys(rows, key)|)
    && NonIncreasing(r)
    && (forall i :: 0 <= i < |r| ==> IsBar(rows, key, agg, width, r[i]))
    && (exists t :: IsTop(rows, key, agg, n, t) && r == Labelled(t, width))
  }

  lemma ChartSizeOrder<T(!new)>(rows: seq<T>, key: T -> Option<string>, agg: seq<T> -> Score, n: nat, width: nat)
    ensures |Labelled(TopGroups(rows, key, agg, n), width)| == Min(n, |GroupKeys(rows, key)|)
    ensures NonIncreasing(Labelled(TopGroups(rows, key, agg, n), width))
  {
    TopGroupsSpec(rows, key, agg, n);
  }

  lemma ChartEntries<T(!new)>(rows: seq<T>, key: T -> Option<string>, agg: seq<T> -> Score, n: nat, width: nat)
    ensures forall i :: 0 <= i < |Labelled(TopGroups(rows, key, agg, n), width)| ==>
              IsBar(rows, key, agg, width, Labelled(TopGroups(rows, key, agg, n), width)[i])
  {
    var r := Labelled(TopGroups(rows, key, agg, n), width);
    forall i | 0 <= i < |r| ensures IsBar(rows, key, agg, width, r[i]) {
      ChartEntry(rows, key, agg, n, width, i);
    }
  }

  lemma ChartFacts<T(!new)>(rows: seq<T>, key: T -> Option<string>, agg: seq<T> -> Score, n: nat, width: nat)
    ensures ChartShape(rows, key, agg, n, width, Labelled(TopGroups(rows, key, agg, n), width))
  {
    ChartSizeOrder(rows, key, agg, n, width);
    ChartEntries(rows, key, agg, n, width);
    TopGroupsIsTop(rows, key, agg, n);
  }

  /** `groupby(key)[...].agg().sort_values(ascending=False).head(n)` with the index shortened to `width` characters plus "...". */
  function Chart<T(==,!new)>(rows: seq<T>, key: T -> Option<string>, agg: seq<T> -> Score, n: nat, width: nat): (r: seq<(string, Score)>)
    ensures ChartShape(rows, key, agg, n, width, r)
  {
    ChartFacts(rows, key, agg, n, width);
    Labelled(TopGroups(rows, key, agg, n), width)
  }

  // ---------------------------------------------------------------------------
  // Key order: `groupby` sorts its keys
  // ---------------------------------------------------------------------------

  /** Python's `<` on strings: lexicographic by code point. */
  predicate StrLess(a: string, b: string) {
    if a == [] then b != []
    else if b == [] then false
    else if a[0] != b[0] then a[0] < b[0]
    else StrLess(a[1..], b[1..])
  }

  lemma {:induction false} StrLessIrreflexive(a: string)
    ensures !StrLess(a, a)
  {
    if a != [] {
      StrLessIrreflexive(a[1..]);
    }
  }

  lemma {:induction false} StrLessTransitive(a: string, b: string, c: string)
    requires StrLess(a, b) && StrLess(b, c)
    ensures StrLess(a, c)
  {
    if a != [] && b != [] && c != [] && a[0] == b[0] && b[0] == c[0] {
      StrLessTransitive(a[1..], b[1..], c[1..]);
    }
  }

  lemma {:induction false} StrLessTotal(a: string, b: string)
    requires a != b
    ensures StrLess(a, b) || StrLess(b, a)
  {
    if a != [] && b != [] && a[0] == b[0] {
      assert a == [a[0]] + a[1..] && b == [b[0]] + b[1..];
      StrLessTotal(a[1..], b[1..]);
    }
  }

  /** Tuples compare element by element, as Python compares the keys of a two-column `groupby`. */
  predicate PairLess(a: (string, string), b: (string, string)) {
    StrLess(a.0, b.0) || (a.0 == b.0 && StrLess(a.1, b.1))
  }

  ghost predicate StrictTotalOrder<K(!new)>(less: (K, K) -> bool) {
    && (forall a :: !less(a, a))
    && (forall a, b, c :: less(a, b) && less(b, c) ==> less(a, c))
    && (forall a, b :: a != b ==> less(a, b) || less(b, a))
  }

  lemma StrLessIsOrder()
    ensures StrictTotalOrder(StrLess)
  {
    forall a ensures !StrLess(a, a) {
      StrLessIrreflexive(a);
    }
    forall a, b, c | StrLess(a, b) && StrLess(b, c) ensures StrLess(a, c) {
      StrLessTransitive(a, b, c);
    }
    forall a, b | a != b ensures StrLess(a, b) || StrLess(b, a) {
      StrLessTotal(a, b);
    }
  }

  lemma PairLessIsOrder()
    ensures StrictTotalOrder(PairLess)
  {
    StrLessIsOrder();
  }

  /** Keys strictly ascending under `less`. */
  predicate Ascending<K, V>(s: seq<(K, V)>, less: (K, K) -> bool) {
    forall i, j :: 0 <= i < j < |s| ==> less(s[i].0, s[j].0)
  }

  lemma ConsAscending<K, V>(e: (K, V), t: seq<(K, V)>, less: (K, K) -> bool)
    requires Ascending(t, less)
    requires forall j :: 0 <= j < |t| ==> less(e.0, t[j].0)
    ensures Ascending([e] + t, less)
  {
    forall i, j | 0 <= i < j < |[e] + t| ensures less(([e] + t)[i].0, ([e] + t)[j].0) {
      assert ([e] + t)[j] == t[j - 1];
      if i > 0 {
        assert ([e] + t)[i] == t[i - 1];
      }
    }
  }

  lemma BelowHead<K(!new), V>(e: (K, V), s: seq<(K, V)>, less: (K, K) -> bool)
    requires StrictTotalOrder(less)
    requires Ascending(s, less) && s != [] && less(e.0, s[0].0)
    ensures forall j :: 0 <= j < |s| ==> less(e.0, s[j].0)
  {
    forall j | 0 < j < |s| ensures less(e.0, s[j].0) {
      assert less(s[0].0, s[j].0);
    }
  }

  /** Facts about the tail of an ascending series when `e` belongs after its head. */
  lemma AfterHead<K(!new), V>(e: (K, V), s: seq<(K, V)>, less: (K, K) -> bool)
    requires StrictTotalOrder(less)
    requires Ascending(s, less) && s != [] && e.0 !in Keys(s) && !less(e.0, s[0].0)
    ensures Ascending(s[1..], less)
    ensures e.0 !in Keys(s[1..])
    ensures less(s[0].0, e.0)
    ensures forall j :: 0 <= j < |s[1..]| ==> less(s[0].0, s[1..][j].0)
  {
    assert e.0 != s[0].0 by {
      assert Keys(s)[0] == s[0].0;
    }
    forall k | 0 <= k < |s[1..]| ensures Keys(s[1..])[k] != e.0 {
      assert Keys(s)[k + 1] == s[k + 1].0;
    }
    forall i, j | 0 <= i < j < |s[1..]| ensures less(s[1..][i].0, s[1..][j].0) {
      assert less(s[i + 1].0, s[j + 1].0);
    }
    forall j | 0 <= j < |s[1..]| ensures less(s[0].0, s[1..][j].0) {
      assert less(s[0].0, s[j + 1].0);
    }
  }

  /** A key below every key of `t` and below `e.0` is below every key of a permutation of `t` plus `e`. */
  lemma BelowAll<K, V>(h: K, e: (K, V), t: seq<(K, V)>, r: seq<(K, V)>, less: (K, K) -> bool)
    requires multiset(r) == multiset(t) + multiset{e}
    requires less(h, e.0)
    requires forall j :: 0 <= j < |t| ==> less(h, t[j].0)
    ensures forall j :: 0 <= j < |r| ==> less(h, r[j].0)
  {
    forall j | 0 <= j < |r| ensures less(h, r[j].0) {
      assert r[j] in multiset(r);
      if r[j] != e {
        assert r[j] in multiset(t);
        var k :| 0 <= k < |t| && t[k] == r[j];
      }
    }
  }

  /** Putting the head back in front of the tail with `e` inserted keeps the keys ascending. */
  lemma InsertAfterHead<K(!new), V>(e: (K, V), s: seq<(K, V)>, rest: seq<(K, V)>, less: (K, K) -> bool)
    requires s != [] && Ascending(rest, less)
    requires multiset(rest) == multiset(s[1..]) + multiset{e}
    requires less(s[0].0, e.0)
    requires forall j :: 0 <= j < |s[1..]| ==> less(s[0].0, s[1..][j].0)
    ensures Ascending([s[0]] + rest, less)
    ensures multiset([s[0]] + rest) == multiset(s) + multiset{e}
  {
    BelowAll(s[0].0, e, s[1..], rest, less);
    ConsAscending(s[0], rest, less);
    assert s == [s[0]] + s[1..];
  }

  function InsertByKey<K(==,!new), V(==)>(e: (K, V), s: seq<(K, V)>, less: (K, K) -> bool): (r: seq<(K, V)>)
    requires StrictTotalOrder(less)
    requires Ascending(s, less) && e.0 !in Keys(s)
    ensures Ascending(r, less)
    ensures multiset(r) == multiset(s) + multiset{e}
  {
    if s == [] then [e]
    else if less(e.0, s[0].0) then
      BelowHead(e, s, less);
      ConsAscending(e, s, less);
      [e] + s
    else
      AfterHead(e, s, less);
      var rest := InsertByKey(e, s[1..], less);
      InsertAfterHead(e, s, rest, less);
      [s[0]] + rest
  }

  /** Dropping the head keeps the keys distinct. */
  lemma DistinctTail<K(!new), V>(s: seq<(K, V)>)
    requires s != [] && Distinct(Keys(s))
    ensures Distinct(Keys(s[1..]))
  {
    forall i, j | 0 <= i < j < |s[1..]| ensures Keys(s[1..])[i] != Keys(s[1..])[j] {
      assert Keys(s)[i + 1] == Keys(s[1..])[i] && Keys(s)[j + 1] == Keys(s[1..])[j];
    }
  }

  /** The head's key is not among the keys of a permutation of the tail. */
  lemma HeadNotInTail<K(!new), V>(s: seq<(K, V)>, r: seq<(K, V)>)
    requires s != [] && Distinct(Keys(s))
    requires multiset(r) == multiset(s[1..])
    ensures s[0].0 !in Keys(r)
  {
    forall k | 0 <= k < |r| ensures Keys(r)[k] != s[0].0 {
      assert r[k] in multiset(s[1..]);
      var m :| 0 <= m < |s[1..]| && s[1..][m] == r[k];
      assert Keys(s)[m + 1] == r[k].0 && Keys(s)[0] == s[0].0;
    }
  }

  /** `groupby(...)` with `sort=True`: the groups by ascending key. */
  function SortByKey<K(==,!new), V(==)>(s: seq<(K, V)>, less: (K, K) -> bool): (r: seq<(K, V)>)
    requires StrictTotalOrder(less)
    requires Distinct(Keys(s))
    ensures Ascending(r, less)
    ensures multiset(r) == multiset(s)
    ensures |r| == |s|
  {
    if s == [] then []
    else
      DistinctTail(s);
      var rest := SortByKey(s[1..], less);
      HeadNotInTail(s, rest);
      assert s == [s[0]] + s[1..];
      InsertByKey(s[0], rest, less)
  }

  /** An ascending sequence under a strict order repeats no key. */
  lemma AscendingDistinct<K(!new), V>(s: seq<(K, V)>, less: (K, K) -> bool)
    requires StrictTotalOrder(less) && Ascending(s, less)
    ensures Distinct(Keys(s))
  {
    forall i, j | 0 <= i < j < |s| ensures Keys(s)[i] != Keys(s)[j] {
      assert less(s[i].0, s[j].0);
    }
  }

  /** Every entry of a permutation of a grouping is one of the grouping's entries. */
  lemma PermutedGroupEntries<T(!new), K(!new), V(!new)>(rows: seq<T>, key: T -> Option<K>, agg: seq<T> -> V, r: seq<(K, V)>)
    requires multiset(r) == multiset(GroupBy(rows, key, agg))
    ensures forall e :: e in r ==> e.0 in GroupKeys(rows, key) && e.1 == agg(GroupRows(rows, key, e.0))
  {
    var g := GroupBy(rows, key, agg);
    forall e | e in r ensures e.0 in GroupKeys(rows, key) && e.1 == agg(GroupRows(rows, key, e.0)) {
      assert e in multiset(g);
      var j :| 0 <= j < |g| && g[j] == e;
    }
  }

  /** A permutation of a grouping has exactly the grouping's keys. */
  lemma PermutedGroupKeys<T(!new), K(!new), V(!new)>(rows: seq<T>, key: T -> Option<K>, agg: seq<T> -> V, r: seq<(K, V)>)
    requires multiset(r) == multiset(GroupBy(rows, key, agg))
    ensures forall k :: k in Keys(r) <==> k in GroupKeys(rows, key)
  {
    var g := GroupBy(rows, key, agg);
    assert Keys(g) == GroupKeys(rows, key);
    forall k ensures k in Keys(r) <==> k in GroupKeys(rows, key) {
      PermutationSameKeys(g, r, k);
    }
  }

  /**
   `groupby(key).agg(...)` with its default `sort=True`: one entry per distinct non-missing
   key, keys ascending, each holding the aggregate of its key's rows.
   */
  function SortedGroupBy<T(==,!new), K(==,!new), V(==,!new)>(rows: seq<T>, key: T -> Option<K>, agg: seq<T> -> V, less: (K, K) -> bool): (r: seq<(K, V)>)
    requires StrictTotalOrder(less)
    ensures Ascending(r, less)
    ensures Distinct(Keys(r))
    ensures |r| == |GroupKeys(rows, key)|
    ensures forall e :: e in r ==> e.0 in GroupKeys(rows, key) && e.1 == agg(GroupRows(rows, key, e.0))
    ensures forall k :: k in Keys(r) <==> k in GroupKeys(rows, key)
  {
    var g := GroupBy(rows, key, agg);
    assert Keys(g) == GroupKeys(rows, key);
    var r := SortByKey(g, less);
    AscendingDistinct(r, less);
    PermutedGroupEntries(rows, key, agg, r);
    PermutedGroupKeys(rows, key, agg, r);
    r
  }
}
