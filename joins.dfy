/**
 `pd.merge(left, right, on=key, how=...)` for the two join kinds the dashboards use.
 A join row is the pair (left row, right row); the scripts' merged records are built
 from these pairs. The key columns of the right-hand tables (customer, order, seller,
 product and category identifiers) are taken to be never missing, so a left row whose key
 is missing matches nothing; the NaN-to-NaN matches `pd.merge` makes are not modelled. Rows come out in left-table order, and the matches of one
 left row in right-table order.
 */
module Joins {
  import opened Tables

  /** The right rows that match left row `a`, in order; none when `a`'s key is missing. */
  function MatchesOf<L, R(==,!new), K(==,!new)>(a: L, right: seq<R>, lk: L -> Option<K>, rk: R -> K): (m: seq<R>)
    ensures forall b :: multiset(m)[b] == if lk(a) == Some(rk(b)) then multiset(right)[b] else 0
  {
    match lk(a)
    case None => []
    case Some(k) => Filter(right, b => rk(b) == k)
  }

  /** Row `a` paired with each of `bs`. */
  function Pairs<L, R>(a: L, bs: seq<R>): (p: seq<(L, R)>)
    ensures |p| == |bs|
    ensures forall i :: 0 <= i < |bs| ==> p[i] == (a, bs[i])
  {
    seq(|bs|, i requires 0 <= i < |bs| => (a, bs[i]))
  }

  /** The rows one left row `a` contributes to a left join. */
  function LeftRowsOf<L, R(==,!new), K(==,!new)>(a: L, right: seq<R>, lk: L -> Option<K>, rk: R -> K): (p: seq<(L, Option<R>)>)
    ensures |p| > 0
    ensures forall i :: 0 <= i < |p| ==> p[i].0 == a
  {
    var ms := MatchesOf(a, right, lk, rk);
    if ms == [] then [(a, None)] else Pairs(a, Column(ms, (b: R) => Some(b)))
  }

  /** `how='inner'`: every (left, right) pair with equal keys. */
  function InnerJoin<L, R(==,!new), K(==,!new)>(left: seq<L>, right: seq<R>, lk: L -> Option<K>, rk: R -> K): (j: seq<(L, R)>)
  {
    if left == [] then []
    else
      var init, x := left[..|left| - 1], left[|left| - 1];
      assert left == init + [x];
      InnerJoin(init, right, lk, rk) + Pairs(x, MatchesOf(x, right, lk, rk))
  }

  /** `how='left'`: every left row with each matching right row, or once with the right side missing. */
  function LeftJoin<L, R(==,!new), K(==,!new)>(left: seq<L>, right: seq<R>, lk: L -> Option<K>, rk: R -> K): (j: seq<(L, Option<R>)>)
    ensures |j| >= |left|
  {
    if left == [] then []
    else
      var init, x := left[..|left| - 1], left[|left| - 1];
      assert left == init + [x];
      LeftJoin(init, right, lk, rk) + LeftRowsOf(x, right, lk, rk)
  }

  /** How many rows a left row turns into under a left join: one per match, and at least one. */
  function Fanout<L, R(==,!new), K(==,!new)>(a: L, right: seq<R>, lk: L -> Option<K>, rk: R -> K): nat {
    var n := |MatchesOf(a, right, lk, rk)|;
    if n == 0 then 1 else n
  }

  lemma MulSucc(m: nat, n: nat)
    ensures (m + 1) * n == m * n + n
  {
  }

  lemma {:induction false} PairsCount<L(!new), R(!new)>(a: L, bs: seq<R>, x: L, y: R)
    ensures multiset(Pairs(a, bs))[(x, y)] == if x == a then multiset(bs)[y] else 0
  {
    if bs != [] {
      var init := bs[..|bs| - 1];
      assert bs == init + [bs[|bs| - 1]];
      assert Pairs(a, bs) == Pairs(a, init) + [(a, bs[|bs| - 1])];
      PairsCount(a, init, x, y);
    }
  }

  lemma {:induction false} ConstantCount<T(!new)>(s: seq<T>, a: T, x: T)
    requires forall i :: 0 <= i < |s| ==> s[i] == a
    ensures multiset(s)[x] == if x == a then |s| else 0
  {
    if s != [] {
      var init := s[..|s| - 1];
      assert s == init + [s[|s| - 1]];
      ConstantCount(init, a, x);
    }
  }

  lemma {:induction false} SomesCount<R(!new)>(bs: seq<R>, y: R)
    ensures multiset(Column(bs, (b: R) => Some(b)))[Some(y)] == multiset(bs)[y]
    ensures multiset(Column(bs, (b: R) => Some(b)))[None] == 0
  {
    if bs != [] {
      var init := bs[..|bs| - 1];
      assert bs == init + [bs[|bs| - 1]];
      assert Column(bs, (b: R) => Some(b)) == Column(init, (b: R) => Some(b)) + [Some(bs[|bs| - 1])];
      SomesCount(init, y);
    }
  }

  /** One more left row adds the matches of that row to the count of a pair. */
  lemma CountStep(m: nat, total: nat, n: nat, c0: nat, c1: nat, isRow: bool, matched: bool)
    requires total == m + if isRow then 1 else 0
    requires c0 == if matched then m * n else 0
    requires c1 == if isRow && matched then n else 0
    ensures c0 + c1 == if matched then total * n else 0
  {
    MulSucc(m, n);
  }

  /** The pairs row `x` contributes to an inner join, counted for the pair (a, b). */
  lemma PairsOfRowCount<L(!new), R(!new), K(!new)>(x: L, right: seq<R>, lk: L -> Option<K>, rk: R -> K, a: L, b: R)
    ensures multiset(Pairs(x, MatchesOf(x, right, lk, rk)))[(a, b)] ==
            if a == x && lk(a) == Some(rk(b)) then multiset(right)[b] else 0
  {
    PairsCount(x, MatchesOf(x, right, lk, rk), a, b);
  }

  /**
   An inner join yields each (left, right) pair with equal keys once per copy of the left row
   times once per copy of the right row: duplicate keys fan out, and unmatched rows are absent.
   */
  lemma {:induction false} InnerJoinCount<L(!new), R(!new), K(!new)>(left: seq<L>, right: seq<R>, lk: L -> Option<K>, rk: R -> K, a: L, b: R)
    ensures multiset(InnerJoin(left, right, lk, rk))[(a, b)] ==
            if lk(a) == Some(rk(b)) then multiset(left)[a] * multiset(right)[b] else 0
  {
    if left != [] {
      var init, x := left[..|left| - 1], left[|left| - 1];
      assert left == init + [x];
      var j0, ps := InnerJoin(init, right, lk, rk), Pairs(x, MatchesOf(x, right, lk, rk));
      assert multiset(InnerJoin(left, right, lk, rk))[(a, b)] == multiset(j0)[(a, b)] + multiset(ps)[(a, b)] by {
        assert InnerJoin(left, right, lk, rk) == j0 + ps;
      }
      InnerJoinCount(init, right, lk, rk, a, b);
      PairsOfRowCount(x, right, lk, rk, a, b);
      assert multiset(left)[a] == multiset(init)[a] + (if a == x then 1 else 0);
      CountStep(multiset(init)[a], multiset(left)[a], multiset(right)[b], multiset(j0)[(a, b)], multiset(ps)[(a, b)], a == x, lk(a) == Some(rk(b)));
    }
  }

  /** The rows row `x` contributes to a left join, counted for the matched pair (a, Some(b)). */
  lemma LeftRowsMatchCount<L(!new), R(!new), K(!new)>(x: L, right: seq<R>, lk: L -> Option<K>, rk: R -> K, a: L, b: R)
    ensures multiset(LeftRowsOf(x, right, lk, rk))[(a, Some(b))] ==
            if a == x && lk(a) == Some(rk(b)) then multiset(right)[b] else 0
  {
    var ms := MatchesOf(x, right, lk, rk);
    if ms != [] {
      PairsCount(x, Column(ms, (c: R) => Some(c)), a, Some(b));
      SomesCount(ms, b);
    } else {
      assert multiset(ms)[b] == 0;
    }
  }

  /** The rows row `x` contributes to a left join, counted for the unmatched row (a, None). */
  lemma LeftRowsMissCount<L(!new), R(!new), K(!new)>(x: L, right: seq<R>, lk: L -> Option<K>, rk: R -> K, a: L)
    ensures multiset(LeftRowsOf(x, right, lk, rk))[(a, None)] ==
            if a == x && MatchesOf(a, right, lk, rk) == [] then 1 else 0
  {
    var ms := MatchesOf(x, right, lk, rk);
    if ms != [] {
      PairsCount(x, Column(ms, (c: R) => Some(c)), a, None);
      SomesCount(ms, ms[0]);
    }
  }

  /** Under a left join, a (left, right) pair with equal keys appears exactly as often as under an inner join. */
  lemma {:induction false} LeftJoinMatchCount<L(!new), R(!new), K(!new)>(left: seq<L>, right: seq<R>, lk: L -> Option<K>, rk: R -> K, a: L, b: R)
    ensures multiset(LeftJoin(left, right, lk, rk))[(a, Some(b))] ==
            if lk(a) == Some(rk(b)) then multiset(left)[a] * multiset(right)[b] else 0
  {
    if left != [] {
      var init, x := left[..|left| - 1], left[|left| - 1];
      assert left == init + [x];
      var j0, rows := LeftJoin(init, right, lk, rk), LeftRowsOf(x, right, lk, rk);
      assert multiset(LeftJoin(left, right, lk, rk))[(a, Some(b))] == multiset(j0)[(a, Some(b))] + multiset(rows)[(a, Some(b))] by {
        assert LeftJoin(left, right, lk, rk) == j0 + rows;
      }
      LeftJoinMatchCount(init, right, lk, rk, a, b);
      LeftRowsMatchCount(x, right, lk, rk, a, b);
      assert multiset(left)[a] == multiset(init)[a] + (if a == x then 1 else 0);
      CountStep(multiset(init)[a], multiset(left)[a], multiset(right)[b], multiset(j0)[(a, Some(b))], multiset(rows)[(a, Some(b))], a == x, lk(a) == Some(rk(b)));
    }
  }

  /** Under a left join, a left row appears with its right side missing exactly when nothing matches it, once per copy. */
  lemma {:induction false} LeftJoinMissCount<L(!new), R(!new), K(!new)>(left: seq<L>, right: seq<R>, lk: L -> Option<K>, rk: R -> K, a: L)
    ensures multiset(LeftJoin(left, right, lk, rk))[(a, None)] ==
            if MatchesOf(a, right, lk, rk) == [] then multiset(left)[a] else 0
  {
    if left != [] {
      var init, x := left[..|left| - 1], left[|left| - 1];
      assert left == init + [x];
      var j0, rows := LeftJoin(init, right, lk, rk), LeftRowsOf(x, right, lk, rk);
      assert multiset(LeftJoin(left, right, lk, rk))[(a, None)] == multiset(j0)[(a, None)] + multiset(rows)[(a, None)] by {
        assert LeftJoin(left, right, lk, rk) == j0 + rows;
      }
      LeftJoinMissCount(init, right, lk, rk, a);
      LeftRowsMissCount(x, right, lk, rk, a);
      assert multiset(left)[a] == multiset(init)[a] + (if a == x then 1 else 0);
    }
  }

  lemma LeftsOfRowsCount<L(!new), R(!new), K(!new)>(x: L, right: seq<R>, lk: L -> Option<K>, rk: R -> K, a: L)
    ensures multiset(Keys(LeftRowsOf(x, right, lk, rk)))[a] == if a == x then Fanout(x, right, lk, rk) else 0
  {
    var rows := LeftRowsOf(x, right, lk, rk);
    ConstantCount(Keys(rows), x, a);
  }

  lemma LeftsOfConcatCount<L(!new), S>(j0: seq<(L, S)>, j1: seq<(L, S)>, a: L)
    ensures multiset(Keys(j0 + j1))[a] == multiset(Keys(j0))[a] + multiset(Keys(j1))[a]
  {
    assert Keys(j0 + j1) == Keys(j0) + Keys(j1);
  }

  /** A left join splits into the join of all but the last left row and the rows of the last one. */
  lemma LeftJoinSnocCount<L(!new), R(!new), K(!new)>(left: seq<L>, right: seq<R>, lk: L -> Option<K>, rk: R -> K, a: L)
    requires left != []
    ensures multiset(Keys(LeftJoin(left, right, lk, rk)))[a] ==
            multiset(Keys(LeftJoin(left[..|left| - 1], right, lk, rk)))[a] + multiset(Keys(LeftRowsOf(left[|left| - 1], right, lk, rk)))[a]
  {
    var init, x := left[..|left| - 1], left[|left| - 1];
    assert left == init + [x];
    assert LeftJoin(left, right, lk, rk) == LeftJoin(init, right, lk, rk) + LeftRowsOf(x, right, lk, rk);
    LeftsOfConcatCount(LeftJoin(init, right, lk, rk), LeftRowsOf(x, right, lk, rk), a);
  }

  lemma SnocCount<T(!new)>(s: seq<T>, a: T)
    requires s != []
    ensures multiset(s)[a] == multiset(s[..|s| - 1])[a] + if a == s[|s| - 1] then 1 else 0
  {
    assert s == s[..|s| - 1] + [s[|s| - 1]];
  }

  /** The left-row count of a left join grows by the fanout of the last left row's copies. */
  lemma KeepsStep<L(!new), R(!new), K(!new)>(left: seq<L>, right: seq<R>, lk: L -> Option<K>, rk: R -> K, a: L)
    requires left != []
    requires multiset(Keys(LeftJoin(left[..|left| - 1], right, lk, rk)))[a] == multiset(left[..|left| - 1])[a] * Fanout(a, right, lk, rk)
    ensures multiset(Keys(LeftJoin(left, right, lk, rk)))[a] == multiset(left)[a] * Fanout(a, right, lk, rk)
  {
    var init, x := left[..|left| - 1], left[|left| - 1];
    LeftJoinSnocCount(left, right, lk, rk, a);
    LeftsOfRowsCount(x, right, lk, rk, a);
    SnocCount(left, a);
    CountStep(multiset(init)[a], multiset(left)[a], Fanout(a, right, lk, rk),
              multiset(Keys(LeftJoin(init, right, lk, rk)))[a], multiset(Keys(LeftRowsOf(x, right, lk, rk)))[a], a == x, true);
  }

  /** A left join keeps every left row: each copy appears once per matching right row, or once if none matches. */
  lemma {:induction false} LeftJoinKeepsLeftRows<L(!new), R(!new), K(!new)>(left: seq<L>, right: seq<R>, lk: L -> Option<K>, rk: R -> K, a: L)
    ensures multiset(Keys(LeftJoin(left, right, lk, rk)))[a] == multiset(left)[a] * Fanout(a, right, lk, rk)
  {
    if left != [] {
      LeftJoinKeepsLeftRows(left[..|left| - 1], right, lk, rk, a);
      KeepsStep(left, right, lk, rk, a);
    } else {
      assert multiset(Keys(LeftJoin(left, right, lk, rk)))[a] == 0;
      assert multiset(left)[a] == 0;
    }
  }

  /** Nothing matches a left row exactly when no right row has its key. */
  lemma NoMatches<L, R(!new), K(!new)>(a: L, right: seq<R>, lk: L -> Option<K>, rk: R -> K)
    ensures MatchesOf(a, right, lk, rk) == [] <==> forall b :: b in right ==> lk(a) != Some(rk(b))
  {
    var ms := MatchesOf(a, right, lk, rk);
    if ms != [] {
      assert ms[0] in multiset(ms);
    }
    forall b | b in right && lk(a) == Some(rk(b)) ensures ms != [] {
      assert multiset(ms)[b] > 0;
    }
  }

  lemma PositiveProduct(m: nat, n: nat)
    requires m * n > 0
    ensures m > 0 && n > 0
  {
  }

  lemma LeftJoinMatchedRow<L(!new), R(!new), K(!new)>(left: seq<L>, right: seq<R>, lk: L -> Option<K>, rk: R -> K, a: L, b: R)
    requires (a, Some(b)) in LeftJoin(left, right, lk, rk)
    ensures a in left && b in right && lk(a) == Some(rk(b))
  {
    assert multiset(LeftJoin(left, right, lk, rk))[(a, Some(b))] > 0;
    LeftJoinMatchCount(left, right, lk, rk, a, b);
    PositiveProduct(multiset(left)[a], multiset(right)[b]);
  }

  lemma LeftJoinUnmatchedRow<L(!new), R(!new), K(!new)>(left: seq<L>, right: seq<R>, lk: L -> Option<K>, rk: R -> K, a: L)
    requires (a, None) in LeftJoin(left, right, lk, rk)
    ensures a in left && MatchesOf(a, right, lk, rk) == []
  {
    assert multiset(LeftJoin(left, right, lk, rk))[(a, None)] > 0;
    LeftJoinMissCount(left, right, lk, rk, a);
  }

  /**
   Every row of a left join comes from a left row: paired with a right row of the same key,
   or with the right side missing exactly when no right row has that key.
   */
  lemma LeftJoinRow<L(!new), R(!new), K(!new)>(left: seq<L>, right: seq<R>, lk: L -> Option<K>, rk: R -> K, p: (L, Option<R>))
    requires p in LeftJoin(left, right, lk, rk)
    ensures p.0 in left
    ensures p.1.Some? ==> p.1.value in right && lk(p.0) == Some(rk(p.1.value))
    ensures p.1.None? <==> forall b :: b in right ==> lk(p.0) != Some(rk(b))
  {
    NoMatches(p.0, right, lk, rk);
    match p.1
    case None =>
      LeftJoinUnmatchedRow(left, right, lk, rk, p.0);
    case Some(b) =>
      LeftJoinMatchedRow(left, right, lk, rk, p.0, b);
  }

  lemma ProductPositive(m: nat, n: nat)
    requires m >= 1 && n >= 1
    ensures m * n >= 1
  {
    MulSucc(m - 1, n);
  }

  /** A left row and a right row with equal keys are paired in the left join. */
  lemma LeftJoinHasMatch<L(!new), R(!new), K(!new)>(left: seq<L>, right: seq<R>, lk: L -> Option<K>, rk: R -> K, a: L, b: R)
    requires a in left && b in right && lk(a) == Some(rk(b))
    ensures (a, Some(b)) in LeftJoin(left, right, lk, rk)
  {
    LeftJoinMatchCount(left, right, lk, rk, a, b);
    ProductPositive(multiset(left)[a], multiset(right)[b]);
  }

  /** Every left row reaches the result of a left join, matched or not. */
  lemma LeftJoinHasRow<L(!new), R(!new), K(!new)>(left: seq<L>, right: seq<R>, lk: L -> Option<K>, rk: R -> K, a: L)
    requires a in left
    ensures exists p :: p in LeftJoin(left, right, lk, rk) && p.0 == a
  {
    var j := LeftJoin(left, right, lk, rk);
    var ls := Keys(j);
    assert multiset(ls)[a] >= 1 by {
      LeftJoinKeepsLeftRows(left, right, lk, rk, a);
      ProductPositive(multiset(left)[a], Fanout(a, right, lk, rk));
    }
    assert a in ls;
    var i :| 0 <= i < |ls| && ls[i] == a;
    assert j[i] in j;
  }
}
