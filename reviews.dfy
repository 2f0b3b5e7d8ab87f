/**
 principal-4.py: reviews are left-joined to orders on `order_id` and then to customers on
 `customer_id`, projected to three columns, and grouped by `customer_state` into a review
 count and a mean score rounded to two decimals.
 */
module ReviewsByState {
  import opened Tables
  import opened Joins
  import opened Ranking

  /** `reviews_df[['review_id', 'order_id', 'review_score']]`. */
  datatype Review = Review(reviewId: Option<string>, orderId: string, score: int)

  /** `orders_df[['order_id', 'customer_id']]`. */
  datatype OrderRef = OrderRef(orderId: string, customerId: string)

  /** `customers_df[['customer_id', 'customer_state']]`. */
  datatype CustomerRef = CustomerRef(customerId: string, state: string)

  /** A row after the merge with orders. */
  datatype ReviewOrder = ReviewOrder(reviewId: Option<string>, orderId: string, score: int, customerId: Option<string>)

  /** A row after the merge with customers. */
  datatype ReviewCustomer = ReviewCustomer(
    reviewId: Option<string>, orderId: string, score: int, customerId: Option<string>, state: Option<string>)

  /** A row after the projection `df[['review_id', 'review_score', 'customer_state']]`. */
  datatype ReviewState = ReviewState(reviewId: Option<string>, score: int, state: Option<string>)

  /** A row of the result: `customer_state`, `num_reviews`, `score_medio`. */
  datatype StateReviews = StateReviews(state: string, numReviews: nat, scoreMean: Option<real>)

  function ReviewKey(r: Review): Option<string> {
    Some(r.orderId)
  }

  function OrderKey(o: OrderRef): string {
    o.orderId
  }

  function CustomerIdKey(r: ReviewOrder): Option<string> {
    r.customerId
  }

  function CustomerKey(c: CustomerRef): string {
    c.customerId
  }

  function WithOrder(p: (Review, Option<OrderRef>)): ReviewOrder {
    ReviewOrder(p.0.reviewId, p.0.orderId, p.0.score, match p.1 case None => None case Some(o) => Some(o.customerId))
  }

  function WithCustomer(p: (ReviewOrder, Option<CustomerRef>)): ReviewCustomer {
    ReviewCustomer(p.0.reviewId, p.0.orderId, p.0.score, p.0.customerId,
                   match p.1 case None => None case Some(c) => Some(c.state))
  }

  /** The review columns of a merged row. */
  function ReviewPart(r: ReviewOrder): Review {
    Review(r.reviewId, r.orderId, r.score)
  }

  /** The columns of a row before its merge with customers. */
  function OrderPart(r: ReviewCustomer): ReviewOrder {
    ReviewOrder(r.reviewId, r.orderId, r.score, r.customerId)
  }

  /** principal-4.py:15, `pd.merge(reviews, orders, on='order_id', how='left')`. */
  function JoinOrders(reviews: seq<Review>, orders: seq<OrderRef>): seq<ReviewOrder> {
    Column(LeftJoin(reviews, orders, ReviewKey, OrderKey), WithOrder)
  }

  /** principal-4.py:16, `pd.merge(df, customers, on='customer_id', how='left')`. */
  function JoinCustomers(rows: seq<ReviewOrder>, customers: seq<CustomerRef>): seq<ReviewCustomer> {
    Column(LeftJoin(rows, customers, CustomerIdKey, CustomerKey), WithCustomer)
  }

  /** principal-4.py:17, `df[['review_id', 'review_score', 'customer_state']]`. */
  function Project(rows: seq<ReviewCustomer>): (r: seq<ReviewState>)
    ensures |r| == |rows|
    ensures forall i :: 0 <= i < |rows| ==>
              r[i].reviewId == rows[i].reviewId && r[i].score == rows[i].score && r[i].state == rows[i].state
  {
    Column(rows, (x: ReviewCustomer) => ReviewState(x.reviewId, x.score, x.state))
  }

  function StateOf(r: ReviewState): Option<string> {
    r.state
  }

  function ReviewIds(g: seq<ReviewState>): seq<Option<string>> {
    Column(g, (r: ReviewState) => r.reviewId)
  }

  function Scores(g: seq<ReviewState>): seq<int> {
    Column(g, (r: ReviewState) => r.score)
  }

  /** `num_reviews=('review_id', 'count')` and `score_medio=('review_score', 'mean')` of one group, then `.round(2)`. */
  function GroupStats(g: seq<ReviewState>): (nat, Option<real>) {
    (|Present(ReviewIds(g))|, match Mean(Scores(g)) case None => None case Some(m) => Some(Round2(m)))
  }

  /** `groupby('customer_state')` with its default key sort: one entry per state, states ascending. */
  function Grouped(rows: seq<ReviewState>): seq<(string, (nat, Option<real>))> {
    StrLessIsOrder();
    SortedGroupBy(rows, StateOf, GroupStats, StrLess)
  }

  function SummaryRow(e: (string, (nat, Option<real>))): StateReviews {
    StateReviews(e.0, e.1.0, e.1.1)
  }

  /** Output states strictly ascending, hence none repeated. */
  predicate StatesAscending(r: seq<StateReviews>) {
    forall i, j :: 0 <= i < j < |r| ==> StrLess(r[i].state, r[j].state)
  }

  /** principal-4.py:21-25, `groupby('customer_state').agg(...).reset_index()` and the rounding of `score_medio`. */
  function Summarise(rows: seq<ReviewState>): (r: seq<StateReviews>)
    ensures |r| == |GroupKeys(rows, StateOf)|
    ensures StatesAscending(r)
  {
    Column(Grouped(rows), SummaryRow)
  }

  /** Output row `i` is the summary of the `i`-th sorted group, which is a group of the input. */
  lemma SummaryRowOf(rows: seq<ReviewState>, i: nat)
    requires i < |Summarise(rows)|
    ensures Summarise(rows)[i] == SummaryRow(Grouped(rows)[i])
    ensures Summarise(rows)[i].state == Keys(Grouped(rows))[i]
    ensures Summarise(rows)[i].state in GroupKeys(rows, StateOf)
    ensures (Summarise(rows)[i].numReviews, Summarise(rows)[i].scoreMean) == GroupStats(GroupRows(rows, StateOf, Summarise(rows)[i].state))
  {
    assert Grouped(rows)[i] in Grouped(rows);
  }

  /** The whole chain of principal-4.py:15-25. */
  function ReviewsPerState(reviews: seq<Review>, orders: seq<OrderRef>, customers: seq<CustomerRef>): seq<StateReviews> {
    Summarise(Project(JoinCustomers(JoinOrders(reviews, orders), customers)))
  }

  // ---------------------------------------------------------------------------
  // The merges keep every left row
  // ---------------------------------------------------------------------------

  /**
   The merge with orders keeps every review: each review row appears once per order row with
   its `order_id`, or exactly once if there is none.
   */
  lemma JoinOrdersKeepsReviews(reviews: seq<Review>, orders: seq<OrderRef>, rv: Review)
    ensures multiset(Column(JoinOrders(reviews, orders), ReviewPart))[rv] ==
            multiset(reviews)[rv] * Fanout(rv, orders, ReviewKey, OrderKey)
  {
    var j := LeftJoin(reviews, orders, ReviewKey, OrderKey);
    assert Column(JoinOrders(reviews, orders), ReviewPart) == Keys(j);
    LeftJoinKeepsLeftRows(reviews, orders, ReviewKey, OrderKey, rv);
  }

  /** A merged row has a missing `customer_id` exactly when no order has its review's `order_id`. */
  lemma JoinOrdersMiss(reviews: seq<Review>, orders: seq<OrderRef>, row: ReviewOrder)
    requires row in JoinOrders(reviews, orders)
    ensures ReviewPart(row) in reviews
    ensures row.customerId.None? <==> forall o :: o in orders ==> o.orderId != row.orderId
    ensures row.customerId.Some? ==> OrderRef(row.orderId, row.customerId.value) in orders
  {
    var j := LeftJoin(reviews, orders, ReviewKey, OrderKey);
    var i :| 0 <= i < |j| && WithOrder(j[i]) == row;
    assert j[i] in j;
    LeftJoinRow(reviews, orders, ReviewKey, OrderKey, j[i]);
  }

  /**
   The merge with customers keeps every row of its left input: each appears once per customer
   row with its `customer_id`, or exactly once if there is none.
   */
  lemma JoinCustomersKeepsRows(rows: seq<ReviewOrder>, customers: seq<CustomerRef>, r: ReviewOrder)
    ensures multiset(Column(JoinCustomers(rows, customers), OrderPart))[r] ==
            multiset(rows)[r] * Fanout(r, customers, CustomerIdKey, CustomerKey)
  {
    var j := LeftJoin(rows, customers, CustomerIdKey, CustomerKey);
    assert Column(JoinCustomers(rows, customers), OrderPart) == Keys(j);
    LeftJoinKeepsLeftRows(rows, customers, CustomerIdKey, CustomerKey, r);
  }

  /** A merged row has a missing `customer_state` exactly when no customer has its (present) `customer_id`. */
  lemma JoinCustomersMiss(rows: seq<ReviewOrder>, customers: seq<CustomerRef>, row: ReviewCustomer)
    requires row in JoinCustomers(rows, customers)
    ensures OrderPart(row) in rows
    ensures row.state.None? <==> (row.customerId.None? || forall c :: c in customers ==> c.customerId != row.customerId.value)
    ensures row.state.Some? ==> CustomerRef(row.customerId.value, row.state.value) in customers
  {
    var j := LeftJoin(rows, customers, CustomerIdKey, CustomerKey);
    var i :| 0 <= i < |j| && WithCustomer(j[i]) == row;
    assert j[i] in j;
    LeftJoinRow(rows, customers, CustomerIdKey, CustomerKey, j[i]);
  }

  lemma FanoutPositive<L, R(!new), K(!new)>(a: L, right: seq<R>, lk: L -> Option<K>, rk: R -> K, m: nat)
    requires m > 0
    ensures m * Fanout(a, right, lk, rk) > 0
  {
    ProductPositive(m, Fanout(a, right, lk, rk));
  }

  /**
   No review is dropped on the way to the grouping (the late-review removal announced at
   principal-4.py:18 does not happen): every review reaches the projected table with its id and score.
   */
  lemma EveryReviewIsGrouped(reviews: seq<Review>, orders: seq<OrderRef>, customers: seq<CustomerRef>, rv: Review)
    requires rv in reviews
    ensures exists r :: r in Project(JoinCustomers(JoinOrders(reviews, orders), customers)) &&
              r.reviewId == rv.reviewId && r.score == rv.score
  {
    var j1 := JoinOrders(reviews, orders);
    ReviewReachesOrders(reviews, orders, rv);
    var a :| 0 <= a < |j1| && ReviewPart(j1[a]) == rv;
    var j2 := JoinCustomers(j1, customers);
    RowReachesCustomers(j1, customers, j1[a]);
    var b :| 0 <= b < |j2| && OrderPart(j2[b]) == j1[a];
    var p := Project(j2);
    assert p[b] in p;
  }

  /** A review has a row of its own in the merge with orders. */
  lemma ReviewReachesOrders(reviews: seq<Review>, orders: seq<OrderRef>, rv: Review)
    requires rv in reviews
    ensures exists a :: 0 <= a < |JoinOrders(reviews, orders)| && ReviewPart(JoinOrders(reviews, orders)[a]) == rv
  {
    var j1 := JoinOrders(reviews, orders);
    JoinOrdersKeepsReviews(reviews, orders, rv);
    FanoutPositive(rv, orders, ReviewKey, OrderKey, multiset(reviews)[rv]);
    assert rv in multiset(Column(j1, ReviewPart));
    var a :| 0 <= a < |j1| && Column(j1, ReviewPart)[a] == rv;
  }

  /** A row of the merge with orders has a row of its own in the merge with customers. */
  lemma RowReachesCustomers(rows: seq<ReviewOrder>, customers: seq<CustomerRef>, ro: ReviewOrder)
    requires ro in rows
    ensures exists b :: 0 <= b < |JoinCustomers(rows, customers)| && OrderPart(JoinCustomers(rows, customers)[b]) == ro
  {
    var j2 := JoinCustomers(rows, customers);
    JoinCustomersKeepsRows(rows, customers, ro);
    FanoutPositive(ro, customers, CustomerIdKey, CustomerKey, multiset(rows)[ro]);
    assert ro in multiset(Column(j2, OrderPart));
    var b :| 0 <= b < |j2| && Column(j2, OrderPart)[b] == ro;
  }

  // ---------------------------------------------------------------------------
  // The grouping
  // ---------------------------------------------------------------------------

  /**
   Each output row belongs to a non-missing state of the input. `num_reviews` counts that
   state's rows with a present `review_id`, and `score_medio` is the state's mean score rounded
   to hundredths, which lies within the group's score range.
   */
  lemma SummariseSpec(rows: seq<ReviewState>, i: nat, lo: int, hi: int)
    requires i < |Summarise(rows)|
    requires forall r :: r in rows ==> lo <= r.score <= hi
    ensures Summarise(rows)[i].state in GroupKeys(rows, StateOf)
    ensures exists r :: r in rows && r.state == Some(Summarise(rows)[i].state)
    ensures Summarise(rows)[i].numReviews == |Present(ReviewIds(GroupRows(rows, StateOf, Summarise(rows)[i].state)))|
    ensures Summarise(rows)[i].numReviews <= |GroupRows(rows, StateOf, Summarise(rows)[i].state)|
    ensures Summarise(rows)[i].scoreMean.Some?
    ensures lo as real - 0.005 <= Summarise(rows)[i].scoreMean.value <= hi as real + 0.005
  {
    var e := Grouped(rows)[i];
    assert e in Grouped(rows);
    var k := e.0;
    var g := GroupRows(rows, StateOf, k);
    ColumnHas(rows, StateOf, Some(k));
    var x :| x in rows && StateOf(x) == Some(k);
    InGroup(rows, StateOf, k, x);
    forall j | 0 <= j < |Scores(g)| ensures lo <= Scores(g)[j] <= hi {
      assert g[j] in g;
      InGroup(rows, StateOf, k, g[j]);
    }
    MeanBounds(Scores(g), lo, hi);
  }

  /** Every output state is present in the input, and every present state has its output row. */
  lemma SummariseKeys(rows: seq<ReviewState>, s: string)
    ensures (exists i :: 0 <= i < |Summarise(rows)| && Summarise(rows)[i].state == s) <==>
            (exists r :: r in rows && r.state == Some(s))
  {
    ColumnHas(rows, StateOf, Some(s));
    var ks := Keys(Grouped(rows));
    if s in GroupKeys(rows, StateOf) {
      assert s in ks;
      var i :| 0 <= i < |ks| && ks[i] == s;
      SummaryRowOf(rows, i);
    }
    if exists i :: 0 <= i < |Summarise(rows)| && Summarise(rows)[i].state == s {
      var i :| 0 <= i < |Summarise(rows)| && Summarise(rows)[i].state == s;
      SummaryRowOf(rows, i);
    }
  }

  /** Review `rv` reaches customer `c` through order `o`. */
  predicate Reaches(rv: Review, o: OrderRef, c: CustomerRef) {
    o.orderId == rv.orderId && c.customerId == o.customerId
  }

  /** A review, one of its orders and that order's customer give a projected row with the customer's state. */
  lemma ChainReachesProjection(reviews: seq<Review>, orders: seq<OrderRef>, customers: seq<CustomerRef>,
                               rv: Review, o: OrderRef, c: CustomerRef)
    requires rv in reviews && o in orders && c in customers && Reaches(rv, o, c)
    ensures exists r :: r in Project(JoinCustomers(JoinOrders(reviews, orders), customers)) && r.state == Some(c.state)
  {
    var j0 := LeftJoin(reviews, orders, ReviewKey, OrderKey);
    LeftJoinHasMatch(reviews, orders, ReviewKey, OrderKey, rv, o);
    var ro := WithOrder((rv, Some(o)));
    ColumnHas(j0, WithOrder, ro);
    var j1 := JoinOrders(reviews, orders);
    var j2 := LeftJoin(j1, customers, CustomerIdKey, CustomerKey);
    LeftJoinHasMatch(j1, customers, CustomerIdKey, CustomerKey, ro, c);
    var rc := WithCustomer((ro, Some(c)));
    ColumnHas(j2, WithCustomer, rc);
    var j3 := JoinCustomers(j1, customers);
    var b :| 0 <= b < |j3| && j3[b] == rc;
    var p := Project(j3);
    assert p[b] in p;
  }

  /** A projected row with a state comes from a review, one of its orders and that order's customer. */
  lemma ProjectionHasChain(reviews: seq<Review>, orders: seq<OrderRef>, customers: seq<CustomerRef>, r: ReviewState)
    requires r in Project(JoinCustomers(JoinOrders(reviews, orders), customers)) && r.state.Some?
    ensures exists rv, o, c :: rv in reviews && o in orders && c in customers && Reaches(rv, o, c) && c.state == r.state.value
  {
    var j1 := JoinOrders(reviews, orders);
    var j3 := JoinCustomers(j1, customers);
    var p := Project(j3);
    var b :| 0 <= b < |p| && p[b] == r;
    var row := j3[b];
    assert row in j3;
    JoinCustomersMiss(j1, customers, row);
    var ro := OrderPart(row);
    JoinOrdersMiss(reviews, orders, ro);
    var c := CustomerRef(row.customerId.value, row.state.value);
    var o := OrderRef(ro.orderId, row.customerId.value);
    assert Reaches(ReviewPart(ro), o, c);
  }

  lemma OutputHasChain(reviews: seq<Review>, orders: seq<OrderRef>, customers: seq<CustomerRef>, i: nat)
    requires i < |ReviewsPerState(reviews, orders, customers)|
    ensures exists rv, o, c :: rv in reviews && o in orders && c in customers && Reaches(rv, o, c) &&
              c.state == ReviewsPerState(reviews, orders, customers)[i].state
  {
    var rows := Project(JoinCustomers(JoinOrders(reviews, orders), customers));
    var s := Summarise(rows)[i].state;
    SummariseKeys(rows, s);
    var r :| r in rows && r.state == Some(s);
    ProjectionHasChain(reviews, orders, customers, r);
  }

  lemma ChainHasOutput(reviews: seq<Review>, orders: seq<OrderRef>, customers: seq<CustomerRef>, rv: Review, o: OrderRef, c: CustomerRef)
    requires rv in reviews && o in orders && c in customers && Reaches(rv, o, c)
    ensures exists i :: 0 <= i < |ReviewsPerState(reviews, orders, customers)| && ReviewsPerState(reviews, orders, customers)[i].state == c.state
  {
    var rows := Project(JoinCustomers(JoinOrders(reviews, orders), customers));
    ChainReachesProjection(reviews, orders, customers, rv, o, c);
    var r :| r in rows && r.state == Some(c.state);
    SummariseKeys(rows, c.state);
    var i :| 0 <= i < |Summarise(rows)| && Summarise(rows)[i].state == c.state;
    assert ReviewsPerState(reviews, orders, customers) == Summarise(rows);
  }

  /**
   The whole chain of principal-4.py:15-25: a state has an output row exactly when some review's
   order was placed by a customer of that state.
   */
  lemma ReviewsPerStateKeys(reviews: seq<Review>, orders: seq<OrderRef>, customers: seq<CustomerRef>, s: string)
    ensures (exists i :: 0 <= i < |ReviewsPerState(reviews, orders, customers)| && ReviewsPerState(reviews, orders, customers)[i].state == s) <==>
            (exists rv, o, c :: rv in reviews && o in orders && c in customers && Reaches(rv, o, c) && c.state == s)
  {
    if exists i :: 0 <= i < |ReviewsPerState(reviews, orders, customers)| && ReviewsPerState(reviews, orders, customers)[i].state == s {
      var i :| 0 <= i < |ReviewsPerState(reviews, orders, customers)| && ReviewsPerState(reviews, orders, customers)[i].state == s;
      OutputHasChain(reviews, orders, customers, i);
    }
    if exists rv, o, c :: rv in reviews && o in orders && c in customers && Reaches(rv, o, c) && c.state == s {
      var rv, o, c :| rv in reviews && o in orders && c in customers && Reaches(rv, o, c) && c.state == s;
      ChainHasOutput(reviews, orders, customers, rv, o, c);
    }
  }

  /** The sum of `num_reviews` over the output rows. */
  function TotalReviews(summary: seq<StateReviews>): nat {
    if summary == [] then 0 else TotalReviews(summary[..|summary| - 1]) + summary[|summary| - 1].numReviews
  }

  lemma {:induction false} TotalReviewsPrefix(rows: seq<ReviewState>, s: seq<StateReviews>, ks: seq<string>, n: nat)
    requires |s| == |ks| && n <= |s|
    requires forall i :: 0 <= i < |s| ==> s[i].numReviews <= |GroupRows(rows, StateOf, ks[i])|
    ensures TotalReviews(s[..n]) <= GroupSizes(rows, StateOf, ks[..n])
  {
    if n > 0 {
      TotalReviewsPrefix(rows, s, ks, n - 1);
      assert s[..n][..n - 1] == s[..n - 1];
      assert ks[..n][..n - 1] == ks[..n - 1];
    }
  }

  lemma TotalReviewsWithin(rows: seq<ReviewState>, s: seq<StateReviews>, ks: seq<string>)
    requires |s| == |ks|
    requires forall i :: 0 <= i < |s| ==> s[i].numReviews <= |GroupRows(rows, StateOf, ks[i])|
    ensures TotalReviews(s) <= GroupSizes(rows, StateOf, ks)
  {
    TotalReviewsPrefix(rows, s, ks, |s|);
    assert s[..|s|] == s;
    assert ks[..|s|] == ks;
  }

  /** The review counts of all states add up to at most the number of joined rows. */
  lemma TotalReviewsBound(rows: seq<ReviewState>)
    ensures TotalReviews(Summarise(rows)) <= |rows|
  {
    var s, ks := Summarise(rows), Keys(Grouped(rows));
    forall i | 0 <= i < |s| ensures s[i].numReviews <= |GroupRows(rows, StateOf, ks[i])| {
      SummaryRowOf(rows, i);
    }
    TotalReviewsWithin(rows, s, ks);
    assert GroupSizes(rows, StateOf, ks) <= |rows| by {
      GroupSizesBound(rows, StateOf, ks);
    }
  }

  /** Two reviews of the state "SP", scored 4 and 2. */
  function ExampleRows(): seq<ReviewState> {
    [ReviewState(Some("r1"), 4, Some("SP")), ReviewState(Some("r2"), 2, Some("SP"))]
  }

  lemma ExampleKeys()
    ensures GroupKeys(ExampleRows(), StateOf) == ["SP"]
  {
    assert Column(ExampleRows(), StateOf) == [Some("SP"), Some("SP")];
    assert Present([Some("SP"), Some("SP")]) == ["SP", "SP"] by {
      assert [Some("SP"), Some("SP")][..1] == [Some("SP")];
      assert Present([Some("SP")]) == ["SP"] by {
        assert [Some("SP")][..0] == [];
      }
    }
    assert Dedup(["SP", "SP"]) == ["SP"];
  }

  lemma ExampleGroup()
    ensures GroupRows(ExampleRows(), StateOf, "SP") == ExampleRows()
  {
    var rows := ExampleRows();
    assert rows[..1] == [rows[0]];
    assert [rows[0]][..0] == [];
  }

  lemma ExampleStats()
    ensures GroupStats(ExampleRows()) == (2, Some(3.0))
  {
    var g := ExampleRows();
    assert ReviewIds(g) == [Some("r1"), Some("r2")];
    assert Present([Some("r1"), Some("r2")]) == ["r1", "r2"] by {
      assert [Some("r1"), Some("r2")][..1] == [Some("r1")];
      assert Present([Some("r1")]) == ["r1"] by {
        assert [Some("r1")][..0] == [];
      }
    }
    assert Scores(g) == [4, 2];
    MeanOfExample();
    RoundOfExample();
  }

  /** Two reviews of one state, scored 4 and 2, give one row with 2 reviews and a mean of 3.00. */
  lemma SummariseExample()
    ensures Summarise(ExampleRows()) == [StateReviews("SP", 2, Some(3.0))]
  {
    ExampleGrouped();
  }

  lemma ExampleGrouped()
    ensures Grouped(ExampleRows()) == [("SP", (2, Some(3.0)))]
  {
    ExampleKeys();
    ExampleGroup();
    ExampleStats();
    var g := Grouped(ExampleRows());
    assert |g| == 1 && g[0] in g;
  }

  lemma MeanOfExample()
    ensures Mean([4, 2]) == Some(3.0)
  {
    assert Sum([4, 2]) == 6 by {
      assert [4, 2][..1] == [4];
      assert [4][..0] == [];
    }
  }

  lemma RoundOfExample()
    ensures Round2(3.0) == 3.0
  {
    assert (3.0 * 100.0).Floor == 300;
  }
}
