/**
 extra-5.py: reviews are left-joined to priced order items, sellers and translated product
 categories and deduplicated; the resulting table goes through a cascade of sidebar filters
 (seller state, review score, total price, freight, orders per seller) and is summarised as
 four top-10 rankings and a score distribution. Money is held in cents.
 */
module SellerDashboard {
  import opened Tables
  import opened Joins
  import opened Ranking

  datatype Result<T, E> = Success(value: T) | Failure(error: E)

  /** `reviews[['order_id', 'review_score']]`. */
  datatype ReviewScore = ReviewScore(orderId: string, score: int)

  /** `items[['order_id', 'product_id', 'seller_id', 'price', 'freight_value']]`. */
  datatype Item = Item(orderId: string, productId: string, sellerId: string, price: int, freight: int)

  /** An item with its `Total prize` column. */
  datatype PricedItem = PricedItem(orderId: string, productId: string, sellerId: string, price: int, freight: int, total: int)

  /** `products[['product_id', 'product_category_name']]`. */
  datatype Product = Product(productId: string, category: Option<string>)

  /** A row of the category-name translation table. */
  datatype Translation = Translation(name: string, english: string)

  /** `product_category_5`: a product and its English category name. */
  datatype ProductCategory = ProductCategory(productId: string, category: Option<string>)

  datatype Seller = Seller(sellerId: string, zipPrefix: int, city: string, state: string)

  /** A row of `df_5`; every column that comes from a right-hand table may be missing. */
  datatype Sale = Sale(
    orderId: string,
    score: int,
    productId: Option<string>,
    sellerId: Option<string>,
    price: Option<int>,
    freight: Option<int>,
    total: Option<int>,
    sellerZip: Option<int>,
    sellerCity: Option<string>,
    sellerState: Option<string>,
    category: Option<string>)

  // ---------------------------------------------------------------------------
  // Total price and category translation
  // ---------------------------------------------------------------------------

  function ItemOf(p: PricedItem): Item {
    Item(p.orderId, p.productId, p.sellerId, p.price, p.freight)
  }

  /**
   extra-5.py:18-19: the `Total prize` column is `price + freight_value`. Amounts are cents, so
   the sum is exact and `round(2)` leaves it unchanged. Dropping the column gives back the
   items, row for row.
   */
  function WithTotal(items: seq<Item>): (r: seq<PricedItem>)
    ensures Column(r, ItemOf) == items
    ensures forall p :: p in r ==> p.total == p.price + p.freight
  {
    var r := Column(items, (x: Item) => PricedItem(x.orderId, x.productId, x.sellerId, x.price, x.freight, x.price + x.freight));
    assert Column(r, ItemOf) == items;
    r
  }

  function CategoryKey(p: Product): Option<string> {
    p.category
  }

  function TranslationKey(t: Translation): string {
    t.name
  }

  function English(p: (Product, Option<Translation>)): ProductCategory {
    ProductCategory(p.0.productId, match p.1 case None => None case Some(t) => Some(t.english))
  }

  /**
   extra-5.py:21-24: products left-joined to the translation table on the Portuguese name,
   keeping `product_id` and the English name under the old column name.
   */
  function Categorise(products: seq<Product>, names: seq<Translation>): seq<ProductCategory> {
    Column(LeftJoin(products, names, CategoryKey, TranslationKey), English)
  }

  /** Every product keeps a row in `product_category_5`. */
  lemma CategoriseKeepsProducts(products: seq<Product>, names: seq<Translation>, p: Product)
    requires p in products
    ensures exists c :: c in Categorise(products, names) && c.productId == p.productId
  {
    var j := LeftJoin(products, names, CategoryKey, TranslationKey);
    LeftJoinHasRow(products, names, CategoryKey, TranslationKey, p);
    var q :| q in j && q.0 == p;
    var i :| 0 <= i < |j| && j[i] == q;
    assert Categorise(products, names)[i] == English(q);
  }

  /**
   Each row of `product_category_5` comes from a product; its category is the translation of
   the product's category, and missing exactly when the product has none or it is untranslated.
   */
  lemma CategoriseRow(products: seq<Product>, names: seq<Translation>, c: ProductCategory)
    requires c in Categorise(products, names)
    ensures exists p :: p in products && p.productId == c.productId &&
              (c.category.None? <==> (p.category.None? || forall t :: t in names ==> t.name != p.category.value)) &&
              (c.category.Some? ==> Translation(p.category.value, c.category.value) in names)
  {
    var j := LeftJoin(products, names, CategoryKey, TranslationKey);
    var i :| 0 <= i < |j| && English(j[i]) == c;
    assert j[i] in j;
    LeftJoinRow(products, names, CategoryKey, TranslationKey, j[i]);
    var p := j[i].0;
    if c.category.Some? {
      var t := j[i].1.value;
      assert t == Translation(p.category.value, c.category.value);
    }
  }

  // ---------------------------------------------------------------------------
  // The join chain and the deduplication
  // ---------------------------------------------------------------------------

  function ReviewKey(r: ReviewScore): Option<string> {
    Some(r.orderId)
  }

  function ItemKey(p: PricedItem): string {
    p.orderId
  }

  function WithItem(p: (ReviewScore, Option<PricedItem>)): Sale {
    match p.1
    case None => Sale(p.0.orderId, p.0.score, None, None, None, None, None, None, None, None, None)
    case Some(it) =>
      Sale(p.0.orderId, p.0.score, Some(it.productId), Some(it.sellerId), Some(it.price), Some(it.freight), Some(it.total),
           None, None, None, None)
  }

  function SellerOf(x: Sale): Option<string> {
    x.sellerId
  }

  function SellerKey(s: Seller): string {
    s.sellerId
  }

  function WithSeller(p: (Sale, Option<Seller>)): Sale {
    match p.1
    case None => p.0
    case Some(s) => p.0.(sellerZip := Some(s.zipPrefix), sellerCity := Some(s.city), sellerState := Some(s.state))
  }

  function StateOf(x: Sale): Option<string> {
    x.sellerState
  }

  function ProductOf(x: Sale): Option<string> {
    x.productId
  }

  function CategoryProductKey(c: ProductCategory): string {
    c.productId
  }

  function WithCategory(p: (Sale, Option<ProductCategory>)): Sale {
    match p.1
    case None => p.0
    case Some(c) => p.0.(category := c.category)
  }

  /** extra-5.py:27, `pd.merge(reviews_5, items_5, on='order_id', how='left')`. */
  function JoinItems(reviews: seq<ReviewScore>, items: seq<PricedItem>): seq<Sale> {
    Column(LeftJoin(reviews, items, ReviewKey, ItemKey), WithItem)
  }

  /** extra-5.py:28, `pd.merge(df_5, sellers, on='seller_id', how='left')`. */
  function JoinSellers(rows: seq<Sale>, sellers: seq<Seller>): seq<Sale> {
    Column(LeftJoin(rows, sellers, SellerOf, SellerKey), WithSeller)
  }

  /** extra-5.py:29, `pd.merge(df_5, product_category_5, on='product_id', how='left')`. */
  function JoinCategories(rows: seq<Sale>, categories: seq<ProductCategory>): seq<Sale> {
    Column(LeftJoin(rows, categories, ProductOf, CategoryProductKey), WithCategory)
  }

  /** extra-5.py:27-29, the three merges in turn. */
  function Joined(reviews: seq<ReviewScore>, items: seq<PricedItem>, sellers: seq<Seller>, categories: seq<ProductCategory>): seq<Sale> {
    JoinCategories(JoinSellers(JoinItems(reviews, items), sellers), categories)
  }

  /**
   extra-5.py:30, `drop_duplicates()`: no two rows are equal, the same rows remain, and each
   stays in the order of its first occurrence in the joined table.
   */
  function SalesTable(reviews: seq<ReviewScore>, items: seq<PricedItem>, sellers: seq<Seller>, categories: seq<ProductCategory>): (r: seq<Sale>)
    ensures Distinct(r)
    ensures forall x :: x in r <==> x in Joined(reviews, items, sellers, categories)
    ensures forall i, j :: 0 <= i < j < |r| ==>
              FirstIndex(Joined(reviews, items, sellers, categories), r[i]) < FirstIndex(Joined(reviews, items, sellers, categories), r[j])
  {
    DedupKeepsFirst(Joined(reviews, items, sellers, categories));
    Dedup(Joined(reviews, items, sellers, categories))
  }

  /** A row of a left join, mapped column-wise, is the image of some joined pair whose left row is the input's. */
  lemma MappedJoinHasRow<L(!new), R(!new), K(!new), V>(left: seq<L>, right: seq<R>, lk: L -> Option<K>, rk: R -> K, f: ((L, Option<R>)) -> V, a: L)
    requires a in left
    ensures exists p :: p in LeftJoin(left, right, lk, rk) && p.0 == a && f(p) in Column(LeftJoin(left, right, lk, rk), f)
  {
    var j := LeftJoin(left, right, lk, rk);
    LeftJoinHasRow(left, right, lk, rk, a);
    var p :| p in j && p.0 == a;
    var i :| 0 <= i < |j| && j[i] == p;
    assert Column(j, f)[i] == f(p);
  }

  /** A review row keeps its order and score through the merge with items. */
  lemma ReviewThroughItems(reviews: seq<ReviewScore>, items: seq<PricedItem>, rv: ReviewScore)
    requires rv in reviews
    ensures exists x :: x in JoinItems(reviews, items) && x.orderId == rv.orderId && x.score == rv.score
  {
    MappedJoinHasRow(reviews, items, ReviewKey, ItemKey, WithItem, rv);
    var p :| p in LeftJoin(reviews, items, ReviewKey, ItemKey) && p.0 == rv && WithItem(p) in JoinItems(reviews, items);
    assert WithItem(p).orderId == rv.orderId && WithItem(p).score == rv.score;
  }

  lemma SaleThroughSellers(rows: seq<Sale>, sellers: seq<Seller>, x: Sale)
    requires x in rows
    ensures exists y :: y in JoinSellers(rows, sellers) && y.orderId == x.orderId && y.score == x.score
  {
    MappedJoinHasRow(rows, sellers, SellerOf, SellerKey, WithSeller, x);
    var p :| p in LeftJoin(rows, sellers, SellerOf, SellerKey) && p.0 == x && WithSeller(p) in JoinSellers(rows, sellers);
    assert WithSeller(p).orderId == x.orderId && WithSeller(p).score == x.score;
  }

  lemma SaleThroughCategories(rows: seq<Sale>, categories: seq<ProductCategory>, x: Sale)
    requires x in rows
    ensures exists y :: y in JoinCategories(rows, categories) && y.orderId == x.orderId && y.score == x.score
  {
    MappedJoinHasRow(rows, categories, ProductOf, CategoryProductKey, WithCategory, x);
    var p :| p in LeftJoin(rows, categories, ProductOf, CategoryProductKey) && p.0 == x && WithCategory(p) in JoinCategories(rows, categories);
    assert WithCategory(p).orderId == x.orderId && WithCategory(p).score == x.score;
  }

  /** The three merges and the deduplication keep every review, with its order and score. */
  lemma EveryReviewReachesSales(reviews: seq<ReviewScore>, items: seq<PricedItem>, sellers: seq<Seller>,
                                categories: seq<ProductCategory>, rv: ReviewScore)
    requires rv in reviews
    ensures exists x :: x in SalesTable(reviews, items, sellers, categories) && x.orderId == rv.orderId && x.score == rv.score
  {
    var j1 := JoinItems(reviews, items);
    ReviewThroughItems(reviews, items, rv);
    var x1 :| x1 in j1 && x1.orderId == rv.orderId && x1.score == rv.score;
    var j2 := JoinSellers(j1, sellers);
    SaleThroughSellers(j1, sellers, x1);
    var x2 :| x2 in j2 && x2.orderId == x1.orderId && x2.score == x1.score;
    SaleThroughCategories(j2, categories, x2);
    var x3 :| x3 in JoinCategories(j2, categories) && x3.orderId == x2.orderId && x3.score == x2.score;
    assert x3 in SalesTable(reviews, items, sellers, categories);
  }

  /**
   After the merge with sellers, a row's `seller_state` is that of a seller with its
   `seller_id`, and is missing exactly when the row has no `seller_id` or no seller has it.
   */
  lemma SellerStateOfSale(reviews: seq<ReviewScore>, items: seq<PricedItem>, sellers: seq<Seller>, x: Sale)
    requires x in JoinSellers(JoinItems(reviews, items), sellers)
    ensures x.sellerState.Some? ==> exists s :: s in sellers && x.sellerId == Some(s.sellerId) && x.sellerState == Some(s.state)
    ensures x.sellerState.None? <==> (x.sellerId.None? || forall s :: s in sellers ==> s.sellerId != x.sellerId.value)
  {
    var j1 := JoinItems(reviews, items);
    var j := LeftJoin(j1, sellers, SellerOf, SellerKey);
    var i :| 0 <= i < |j| && WithSeller(j[i]) == x;
    assert j[i] in j;
    LeftJoinRow(j1, sellers, SellerOf, SellerKey, j[i]);
    var k :| 0 <= k < |j1| && j1[k] == j[i].0;
    assert j[i].0.sellerState.None?;
  }

  // ---------------------------------------------------------------------------
  // The filter cascade
  // ---------------------------------------------------------------------------

  /**
   The sidebar choices: the selected seller states and the inclusive ranges of the score,
   total-price, freight and orders-per-seller sliders (amounts in cents).
   */
  datatype Selection = Selection(
    states: set<string>,
    scoreMin: int, scoreMax: int,
    totalMin: int, totalMax: int,
    freightMin: int, freightMax: int,
    ordersMin: int, ordersMax: int)

  /**
   The two points where the cascade stops with an error: `int()` of the minimum of an empty
   column is `int(NaN)`.
   */
  datatype FilterError =
    | EmptyScoreRange   // extra-5.py:47, no row left after the state filter
    | EmptyOrderCount   // extra-5.py:75, no seller left in `order_count`

  /** extra-5.py:36: the states offered by the state filter, the present values of `seller_state`. */
  function AvailableStates(rows: seq<Sale>): set<string> {
    ValueSet(Present(Column(rows, StateOf)))
  }

  /** extra-5.py:42, `isin`: false on a missing state. */
  predicate InStates(sel: Selection, x: Sale) {
    x.sellerState.Some? && x.sellerState.value in sel.states
  }

  /** extra-5.py:51. */
  predicate ScoreIn(sel: Selection, x: Sale) {
    sel.scoreMin <= x.score <= sel.scoreMax
  }

  /** `lo <= v <= hi` on a column value; a comparison with a missing value is false. */
  predicate Between(v: Option<int>, lo: int, hi: int) {
    v.Some? && lo <= v.value <= hi
  }

  /** extra-5.py:59. */
  predicate TotalIn(sel: Selection, x: Sale) {
    Between(x.total, sel.totalMin, sel.totalMax)
  }

  /** extra-5.py:67. */
  predicate FreightIn(sel: Selection, x: Sale) {
    Between(x.freight, sel.freightMin, sel.freightMax)
  }

  /** The state, score and total-price filters, the ones applied to `df_5` itself. */
  predicate Passes(sel: Selection, x: Sale) {
    InStates(sel, x) && ScoreIn(sel, x) && TotalIn(sel, x)
  }

  /** extra-5.py:42, `df_5[df_5['seller_state'].isin(estados_seleccionados)]`. */
  function ByState(rows: seq<Sale>, sel: Selection): (r: seq<Sale>)
    ensures Sublist(r, rows)
    ensures forall y :: multiset(r)[y] == if InStates(sel, y) then multiset(rows)[y] else 0
  {
    FilterIsSublist(rows, (x: Sale) => InStates(sel, x));
    Filter(rows, (x: Sale) => InStates(sel, x))
  }

  /** extra-5.py:51, the score range. */
  function ByScore(rows: seq<Sale>, sel: Selection): (r: seq<Sale>)
    ensures Sublist(r, rows)
    ensures forall y :: multiset(r)[y] == if ScoreIn(sel, y) then multiset(rows)[y] else 0
  {
    FilterIsSublist(rows, (x: Sale) => ScoreIn(sel, x));
    Filter(rows, (x: Sale) => ScoreIn(sel, x))
  }

  /** extra-5.py:59, the total-price range. */
  function ByTotal(rows: seq<Sale>, sel: Selection): (r: seq<Sale>)
    ensures Sublist(r, rows)
    ensures forall y :: multiset(r)[y] == if TotalIn(sel, y) then multiset(rows)[y] else 0
  {
    FilterIsSublist(rows, (x: Sale) => TotalIn(sel, x));
    Filter(rows, (x: Sale) => TotalIn(sel, x))
  }

  /** extra-5.py:67, the freight range. */
  function ByFreight(rows: seq<Sale>, sel: Selection): (r: seq<Sale>)
    ensures forall y :: multiset(r)[y] == if FreightIn(sel, y) then multiset(rows)[y] else 0
  {
    Filter(rows, (x: Sale) => FreightIn(sel, x))
  }

  /** extra-5.py:89, `df_5[df_5['seller_id'].isin(filtered_order_df.index)]`. */
  function BySeller(rows: seq<Sale>, active: seq<string>): (r: seq<Sale>)
    ensures Sublist(r, rows)
    ensures forall y :: multiset(r)[y] == if y.sellerId.Some? && y.sellerId.value in active then multiset(rows)[y] else 0
  {
    FilterIsSublist(rows, (x: Sale) => x.sellerId.Some? && x.sellerId.value in active);
    Filter(rows, (x: Sale) => x.sellerId.Some? && x.sellerId.value in active)
  }

  /** The distinct orders of seller `s` in a table. */
  function OrdersOf(df: seq<Sale>, s: string): set<string> {
    set y | y in df && y.sellerId == Some(s) :: y.orderId
  }

  /** The distinct orders of seller `s` among the input rows passing all four value filters (the table `df`). */
  function SellerOrders(rows: seq<Sale>, sel: Selection, s: string): set<string> {
    set y | y in rows && Passes(sel, y) && FreightIn(sel, y) && y.sellerId == Some(s) :: y.orderId
  }

  /** A seller appears in `order_count` and its count lies in the selected range. */
  predicate SellerActive(rows: seq<Sale>, sel: Selection, s: string) {
    var n := |SellerOrders(rows, sel, s)|;
    n > 0 && sel.ordersMin <= n <= sel.ordersMax
  }

  /**
   Whether a row of the input ends in the filtered `df_5`: it passes the state, score and
   total-price filters and its seller is active. Its own freight value plays no part.
   */
  predicate Kept(rows: seq<Sale>, sel: Selection, x: Sale) {
    Passes(sel, x) && x.sellerId.Some? && SellerActive(rows, sel, x.sellerId.value)
  }

  function OrderIdOf(x: Sale): string {
    x.orderId
  }

  /** `['order_id'].nunique()` of one seller's rows. */
  function DistinctOrders(g: seq<Sale>): nat {
    NUnique(Column(g, OrderIdOf))
  }

  predicate InOrderRange(sel: Selection, e: (string, nat)) {
    sel.ordersMin <= e.1 <= sel.ordersMax
  }

  /** extra-5.py:72 and 88: the sellers of `order_count` whose count lies in the selected range. */
  function ActiveSellers(df: seq<Sale>, sel: Selection): seq<string> {
    Keys(Filter(GroupBy(df, SellerOf, DistinctOrders), e => InOrderRange(sel, e)))
  }

  /** The orders counted for seller `s` in `order_count` are its distinct orders in `df`. */
  lemma GroupOrders(df: seq<Sale>, s: string)
    ensures ValueSet(Column(GroupRows(df, SellerOf, s), OrderIdOf)) == OrdersOf(df, s)
  {
    var g := GroupRows(df, SellerOf, s);
    forall o ensures o in ValueSet(Column(g, OrderIdOf)) <==> o in OrdersOf(df, s) {
      ColumnHas(g, OrderIdOf, o);
      if o in OrdersOf(df, s) {
        var y :| y in df && y.sellerId == Some(s) && y.orderId == o;
        InGroup(df, SellerOf, s, y);
      }
      if o in ValueSet(Column(g, OrderIdOf)) {
        var y :| y in g && y.orderId == o;
        InGroup(df, SellerOf, s, y);
      }
    }
  }

  /** A seller is in `order_count` exactly when it has a row in `df`. */
  lemma SellerInGroups(df: seq<Sale>, s: string)
    ensures s in GroupKeys(df, SellerOf) <==> OrdersOf(df, s) != {}
  {
    ColumnHas(df, SellerOf, Some(s));
    if s in GroupKeys(df, SellerOf) {
      var y :| y in df && SellerOf(y) == Some(s);
      assert y.orderId in OrdersOf(df, s);
    }
  }

  lemma FilteredGroupKeysOnly<T(!new), K(!new), V(!new)>(rows: seq<T>, key: T -> Option<K>, agg: seq<T> -> V, p: ((K, V)) -> bool, k: K)
    requires k in Keys(Filter(GroupBy(rows, key, agg), p))
    ensures k in GroupKeys(rows, key) && p((k, agg(GroupRows(rows, key, k))))
  {
    var g := GroupBy(rows, key, agg);
    var f := Filter(g, p);
    var i :| 0 <= i < |f| && Keys(f)[i] == k;
    var e := f[i];
    assert e in f;
    FilterMember(g, p, e);
    assert e in g;
    var j :| 0 <= j < |g| && g[j] == e;
    assert g[j].0 == GroupKeys(rows, key)[j];
  }

  lemma FilteredGroupKeysAll<T(!new), K(!new), V(!new)>(rows: seq<T>, key: T -> Option<K>, agg: seq<T> -> V, p: ((K, V)) -> bool, k: K)
    requires k in GroupKeys(rows, key) && p((k, agg(GroupRows(rows, key, k))))
    ensures k in Keys(Filter(GroupBy(rows, key, agg), p))
  {
    var g := GroupBy(rows, key, agg);
    var f := Filter(g, p);
    var e := (k, agg(GroupRows(rows, key, k)));
    var j :| 0 <= j < |GroupKeys(rows, key)| && GroupKeys(rows, key)[j] == k;
    assert g[j] == e;
    FilterMember(g, p, e);
    var i :| 0 <= i < |f| && f[i] == e;
    assert Keys(f)[i] == k;
  }

  /** A key survives a filter on the groups exactly when it is a group key whose entry passes. */
  lemma FilteredGroupKeys<T(!new), K(!new), V(!new)>(rows: seq<T>, key: T -> Option<K>, agg: seq<T> -> V, p: ((K, V)) -> bool, k: K)
    ensures k in Keys(Filter(GroupBy(rows, key, agg), p)) <==> k in GroupKeys(rows, key) && p((k, agg(GroupRows(rows, key, k))))
  {
    if k in Keys(Filter(GroupBy(rows, key, agg), p)) {
      FilteredGroupKeysOnly(rows, key, agg, p, k);
    }
    if k in GroupKeys(rows, key) && p((k, agg(GroupRows(rows, key, k)))) {
      FilteredGroupKeysAll(rows, key, agg, p, k);
    }
  }

  /** `filtered_order_df.index` holds exactly the sellers of `df` with an order count in range. */
  lemma ActiveSellersSpec(df: seq<Sale>, sel: Selection, s: string)
    ensures s in ActiveSellers(df, sel) <==>
            OrdersOf(df, s) != {} && sel.ordersMin <= |OrdersOf(df, s)| <= sel.ordersMax
  {
    FilteredGroupKeys(df, SellerOf, DistinctOrders, e => InOrderRange(sel, e), s);
    GroupOrders(df, s);
    SellerInGroups(df, s);
  }

  /** `order_count` is empty exactly when no row of `df` has a seller. */
  lemma OrderCountEmpty(df: seq<Sale>)
    ensures GroupBy(df, SellerOf, DistinctOrders) == [] <==> forall y :: y in df ==> y.sellerId.None?
  {
    if GroupBy(df, SellerOf, DistinctOrders) != [] {
      var s := GroupKeys(df, SellerOf)[0];
      SellerInGroups(df, s);
    }
    forall y | y in df && y.sellerId.Some? ensures GroupKeys(df, SellerOf) != [] {
      SellerInGroups(df, y.sellerId.value);
      assert y.orderId in OrdersOf(df, y.sellerId.value);
    }
  }

  /** On the table `df`, a seller is in `filtered_order_df` exactly when it is active. */
  lemma ActiveInTable(rows: seq<Sale>, sel: Selection, df: seq<Sale>, s: string)
    requires forall y :: y in df <==> y in rows && Passes(sel, y) && FreightIn(sel, y)
    ensures s in ActiveSellers(df, sel) <==> SellerActive(rows, sel, s)
  {
    ActiveSellersSpec(df, sel, s);
    assert OrdersOf(df, s) == SellerOrders(rows, sel, s);
  }

  /** The last filter of the cascade, on the sellers of `filtered_order_df`, keeps exactly the `Kept` rows. */
  lemma KeptRows(rows: seq<Sale>, sel: Selection, df5: seq<Sale>, df: seq<Sale>, kept: seq<Sale>)
    requires forall y :: multiset(df5)[y] == if Passes(sel, y) then multiset(rows)[y] else 0
    requires forall y :: y in df <==> y in rows && Passes(sel, y) && FreightIn(sel, y)
    requires forall y :: multiset(kept)[y] ==
               if y.sellerId.Some? && y.sellerId.value in ActiveSellers(df, sel) then multiset(df5)[y] else 0
    ensures forall y :: multiset(kept)[y] == if Kept(rows, sel, y) then multiset(rows)[y] else 0
    ensures forall y :: y in kept ==> y.sellerId.Some? && y.sellerState.Some? && y.total.Some?
  {
    forall y ensures multiset(kept)[y] == if Kept(rows, sel, y) then multiset(rows)[y] else 0 {
      if y.sellerId.Some? {
        ActiveInTable(rows, sel, df, y.sellerId.value);
      }
    }
    forall y | y in kept ensures y.sellerId.Some? && y.sellerState.Some? && y.total.Some? {
      assert multiset(kept)[y] > 0;
    }
  }

  /**
   extra-5.py:36-89. `df_5` is narrowed by the state, score and total-price filters; the
   freight filter is bound to `df` instead, which only decides the per-seller order counts
   and so which sellers `df_5` keeps. The result is the input's rows in their order, each kept
   as often as it occurs exactly when `Kept` holds; no kept row lacks a seller, a state or a
   total. The cascade fails at the slider bounds when the state filter leaves no row, or when
   no row of `df` has a seller.
   */
  method ApplyFilters(rows: seq<Sale>, sel: Selection) returns (r: Result<seq<Sale>, FilterError>)
    ensures r == Failure(EmptyScoreRange) <==> forall x :: x in rows ==> !InStates(sel, x)
    ensures r == Failure(EmptyOrderCount) <==>
              (exists x :: x in rows && InStates(sel, x)) &&
              forall x :: x in rows && Passes(sel, x) && FreightIn(sel, x) ==> x.sellerId.None?
    ensures r.Success? ==> Sublist(r.value, rows)
    ensures r.Success? ==> forall x :: multiset(r.value)[x] == if Kept(rows, sel, x) then multiset(rows)[x] else 0
    ensures r.Success? ==> forall x :: x in r.value ==> x.sellerId.Some? && x.sellerState.Some? && x.total.Some?
  {
    var df5 := ByState(rows, sel);
    StateFilterEmpty(rows, sel);
    if df5 == [] {
      return Failure(EmptyScoreRange);
    }
    df5 := ByScore(df5, sel);
    df5 := ByTotal(df5, sel);
    ValueFilters(rows, sel);
    var df := ByFreight(df5, sel);
    OrderCountEmptyIff(rows, sel);
    if GroupBy(df, SellerOf, DistinctOrders) == [] {
      return Failure(EmptyOrderCount);
    }
    var before := df5;
    df5 := BySeller(df5, ActiveSellers(df, sel));
    SublistTransitive(df5, before, rows);
    KeptRows(rows, sel, before, df, df5);
    r := Success(df5);
  }

  /** The state filter leaves no row exactly when no row has a selected state. */
  lemma StateFilterEmpty(rows: seq<Sale>, sel: Selection)
    ensures ByState(rows, sel) == [] <==> forall x :: x in rows ==> !InStates(sel, x)
  {
    var df5 := ByState(rows, sel);
    if df5 == [] {
      forall x | x in rows ensures !InStates(sel, x) {
        assert multiset(df5)[x] == 0;
      }
    } else {
      assert df5[0] in multiset(df5);
    }
  }

  /** The state, score and total-price filters in turn keep each row passing all three, as often as it occurs. */
  lemma ValueFilters(rows: seq<Sale>, sel: Selection)
    ensures Sublist(ByTotal(ByScore(ByState(rows, sel), sel), sel), rows)
    ensures forall y :: multiset(ByTotal(ByScore(ByState(rows, sel), sel), sel))[y] == if Passes(sel, y) then multiset(rows)[y] else 0
  {
    var d1 := ByState(rows, sel);
    var d2 := ByScore(d1, sel);
    SublistTransitive(d2, d1, rows);
    SublistTransitive(ByTotal(d2, sel), d2, rows);
  }

  /** The table `df`, after the freight filter as well, holds the input rows passing all four value filters. */
  lemma FreightTable(rows: seq<Sale>, sel: Selection)
    ensures forall y :: y in ByFreight(ByTotal(ByScore(ByState(rows, sel), sel), sel), sel) <==>
              y in rows && Passes(sel, y) && FreightIn(sel, y)
  {
    var df5 := ByTotal(ByScore(ByState(rows, sel), sel), sel);
    var df := ByFreight(df5, sel);
    ValueFilters(rows, sel);
    forall y ensures y in df <==> y in rows && Passes(sel, y) && FreightIn(sel, y) {
      assert multiset(df)[y] == if Passes(sel, y) && FreightIn(sel, y) then multiset(rows)[y] else 0;
    }
  }

  /** `order_count` is empty exactly when no row passing all four value filters has a seller. */
  lemma OrderCountEmptyIff(rows: seq<Sale>, sel: Selection)
    ensures forall y :: y in ByFreight(ByTotal(ByScore(ByState(rows, sel), sel), sel), sel) <==>
              y in rows && Passes(sel, y) && FreightIn(sel, y)
    ensures GroupBy(ByFreight(ByTotal(ByScore(ByState(rows, sel), sel), sel), sel), SellerOf, DistinctOrders) == [] <==>
            forall x :: x in rows && Passes(sel, x) && FreightIn(sel, x) ==> x.sellerId.None?
  {
    FreightTable(rows, sel);
    OrderCountEmpty(ByFreight(ByTotal(ByScore(ByState(rows, sel), sel), sel), sel));
  }

  /**
   The freight filter does not narrow `df_5`: a row whose freight lies outside the selected
   range is still kept when another row of its seller lies inside it.
   */
  lemma FreightOutsideRangeIsKept()
    ensures exists rows: seq<Sale>, sel: Selection, x: Sale :: x in rows && Kept(rows, sel, x) && !FreightIn(sel, x)
  {
    var cheap := Sale("o1", 5, Some("p1"), Some("s1"), Some(1000), Some(100), Some(1100), Some(1000), Some("sp"), Some("SP"), None);
    var dear := cheap.(freight := Some(900), total := Some(1900));
    var rows := [cheap, dear];
    var sel := Selection({"SP"}, 1, 5, 0, 5000, 0, 500, 1, 10);
    assert Passes(sel, cheap) && FreightIn(sel, cheap);
    assert "o1" in SellerOrders(rows, sel, "s1");
    assert SellerOrders(rows, sel, "s1") == {"o1"};
    assert Kept(rows, sel, dear) && !FreightIn(sel, dear);
  }

  /**
   With the default state selection, all offered states, the state filter keeps exactly the
   rows that have a `seller_state`.
   */
  lemma DefaultStatesKeepPresent(rows: seq<Sale>, x: Sale)
    requires x in rows
    ensures InStates(Selection(AvailableStates(rows), 0, 0, 0, 0, 0, 0, 0, 0), x) <==> x.sellerState.Some?
  {
    if x.sellerState.Some? {
      ColumnHas(rows, StateOf, x.sellerState);
    }
  }

  // ---------------------------------------------------------------------------
  // The charts
  // ---------------------------------------------------------------------------

  function CategoryOf(x: Sale): Option<string> {
    x.category
  }

  function ScoreValue(x: Sale): int {
    x.score
  }

  function Scores(g: seq<Sale>): seq<int> {
    Column(g, ScoreValue)
  }

  function TotalOf(x: Sale): Option<int> {
    x.total
  }

  function FreightOf(x: Sale): Option<int> {
    x.freight
  }

  /** `['review_score'].mean()` of a group. */
  function MeanScore(g: seq<Sale>): Score {
    Mean(Scores(g))
  }

  /** The size of a group, as `value_counts` counts it. */
  function RowCount(g: seq<Sale>): Score {
    Some(|g| as real)
  }

  /** `['Total prize'].sum()` of a group, in cents; missing totals are skipped. */
  function Revenue(g: seq<Sale>): Score {
    Some(Sum(Present(Column(g, TotalOf))) as real)
  }

  /** `['freight_value'].mean()` of a group, in cents; missing values are skipped, and none present gives NaN. */
  function MeanFreight(g: seq<Sale>): Score {
    Mean(Present(Column(g, FreightOf)))
  }

  /**
   extra-5.py:99-100: the ten sellers with the highest mean review score, labelled by the first
   ten characters of their id; a seller left out scores no higher than any shown.
   */
  function TopSellers(df5: seq<Sale>): (r: seq<(string, Score)>)
    ensures |r| == Min(10, |GroupKeys(df5, SellerOf)|)
    ensures NonIncreasing(r)
    ensures forall i :: 0 <= i < |r| ==> exists s :: (s in GroupKeys(df5, SellerOf) &&
              r[i] == (Label(s, 10), Mean(Scores(GroupRows(df5, SellerOf, s)))))
    ensures exists t :: IsTop(df5, SellerOf, MeanScore, 10, t) && r == Labelled(t, 10)
  {
    Chart(df5, SellerOf, MeanScore, 10, 10)
  }

  /** extra-5.py:138-139: the ten most frequent categories with their row counts. */
  function TopCategories(df5: seq<Sale>): (r: seq<(string, Score)>)
    ensures |r| == Min(10, |GroupKeys(df5, CategoryOf)|)
    ensures NonIncreasing(r)
    ensures forall i :: 0 <= i < |r| ==> exists c :: (c in GroupKeys(df5, CategoryOf) &&
              r[i] == (Label(c, 15), Some(|GroupRows(df5, CategoryOf, c)| as real)))
    ensures exists t :: IsTop(df5, CategoryOf, RowCount, 10, t) && r == Labelled(t, 15)
  {
    Chart(df5, CategoryOf, RowCount, 10, 15)
  }

  /** extra-5.py:150-151: the ten sellers with the highest revenue. */
  function TopRevenue(df5: seq<Sale>): (r: seq<(string, Score)>)
    ensures |r| == Min(10, |GroupKeys(df5, SellerOf)|)
    ensures NonIncreasing(r)
    ensures forall i :: 0 <= i < |r| ==> exists s :: (s in GroupKeys(df5, SellerOf) &&
              r[i] == (Label(s, 10), Some(Sum(Present(Column(GroupRows(df5, SellerOf, s), TotalOf))) as real)))
    ensures exists t :: IsTop(df5, SellerOf, Revenue, 10, t) && r == Labelled(t, 10)
  {
    Chart(df5, SellerOf, Revenue, 10, 10)
  }

  /** extra-5.py:162-163: the ten categories with the highest mean freight. */
  function TopShipping(df5: seq<Sale>): (r: seq<(string, Score)>)
    ensures |r| == Min(10, |GroupKeys(df5, CategoryOf)|)
    ensures NonIncreasing(r)
    ensures forall i :: 0 <= i < |r| ==> exists c :: (c in GroupKeys(df5, CategoryOf) &&
              r[i] == (Label(c, 15), Mean(Present(Column(GroupRows(df5, CategoryOf, c), FreightOf)))))
    ensures exists t :: IsTop(df5, CategoryOf, MeanFreight, 10, t) && r == Labelled(t, 15)
  {
    Chart(df5, CategoryOf, MeanFreight, 10, 15)
  }

  /** The mean score of a seller present in the table lies within the range of the scores. */
  lemma SellerMeanRange(df5: seq<Sale>, lo: int, hi: int, s: string)
    requires forall x :: x in df5 ==> lo <= x.score <= hi
    requires s in GroupKeys(df5, SellerOf)
    ensures Mean(Scores(GroupRows(df5, SellerOf, s))).Some?
    ensures lo as real <= Mean(Scores(GroupRows(df5, SellerOf, s))).value <= hi as real
  {
    var g := GroupRows(df5, SellerOf, s);
    ColumnHas(df5, SellerOf, Some(s));
    var y :| y in df5 && SellerOf(y) == Some(s);
    InGroup(df5, SellerOf, s, y);
    forall j | 0 <= j < |Scores(g)| ensures lo <= Scores(g)[j] <= hi {
      assert g[j] in g;
      InGroup(df5, SellerOf, s, g[j]);
    }
    MeanBounds(Scores(g), lo, hi);
  }

  /** The mean score of each charted seller lies within the range of the scores. */
  lemma TopSellersScoreRange(df5: seq<Sale>, lo: int, hi: int, i: nat)
    requires forall x :: x in df5 ==> lo <= x.score <= hi
    requires i < |TopSellers(df5)|
    ensures TopSellers(df5)[i].1.Some?
    ensures lo as real <= TopSellers(df5)[i].1.value <= hi as real
  {
    var s :| s in GroupKeys(df5, SellerOf) && TopSellers(df5)[i] == (Label(s, 10), Mean(Scores(GroupRows(df5, SellerOf, s))));
    SellerMeanRange(df5, lo, hi, s);
  }

  // ---------------------------------------------------------------------------
  // The score distribution
  // ---------------------------------------------------------------------------

  /** `<` on scores, the order `sort_index()` uses. */
  predicate IntLess(a: int, b: int) {
    a < b
  }

  lemma IntLessIsOrder()
    ensures StrictTotalOrder(IntLess)
  {
  }

  function ScoreOf(x: Sale): Option<int> {
    Some(x.score)
  }

  function GroupSize(g: seq<Sale>): nat {
    |g|
  }

  /**
   extra-5.py:111, `value_counts().sort_index()` of `review_score`: each score present once,
   ascending, with the number of rows that have it.
   */
  function ScoreCounts(df5: seq<Sale>): (r: seq<(int, nat)>)
    ensures Ascending(r, IntLess)
    ensures Distinct(Keys(r))
    ensures forall v :: v in Keys(r) <==> exists x :: x in df5 && x.score == v
    ensures forall i :: 0 <= i < |r| ==> r[i].1 == multiset(Scores(df5))[r[i].0] && r[i].1 > 0
  {
    IntLessIsOrder();
    var r := SortedGroupBy(df5, ScoreOf, GroupSize, IntLess);
    forall v ensures v in Keys(r) <==> exists x :: x in df5 && x.score == v {
      ColumnHas(df5, ScoreOf, Some(v));
    }
    forall i | 0 <= i < |r| ensures r[i].1 == multiset(Scores(df5))[r[i].0] && r[i].1 > 0 {
      assert r[i] in r;
      ScoreGroupSize(df5, r[i].0);
      ColumnHas(df5, ScoreOf, Some(r[i].0));
      var x :| x in df5 && ScoreOf(x) == Some(r[i].0);
      InGroup(df5, ScoreOf, r[i].0, x);
    }
    r
  }

  /** The scores column of a table grows by the score of each appended row. */
  lemma ScoresSnoc(df5: seq<Sale>, v: int)
    requires df5 != []
    ensures multiset(Scores(df5))[v] == multiset(Scores(df5[..|df5| - 1]))[v] + if df5[|df5| - 1].score == v then 1 else 0
  {
    var init, x := df5[..|df5| - 1], df5[|df5| - 1];
    assert df5 == init + [x];
    assert Scores(df5) == Scores(init) + [x.score];
  }

  /** The group of a score grows by each appended row that has it. */
  lemma ScoreGroupSnoc(df5: seq<Sale>, v: int)
    requires df5 != []
    ensures |GroupRows(df5, ScoreOf, v)| == |GroupRows(df5[..|df5| - 1], ScoreOf, v)| + if df5[|df5| - 1].score == v then 1 else 0
  {
    var init, x := df5[..|df5| - 1], df5[|df5| - 1];
    assert df5 == init + [x];
    GroupRowsSnoc(init, ScoreOf, v, x);
  }

  lemma {:induction false} ScoreGroupSize(df5: seq<Sale>, v: int)
    ensures |GroupRows(df5, ScoreOf, v)| == multiset(Scores(df5))[v]
  {
    if df5 != [] {
      ScoresSnoc(df5, v);
      ScoreGroupSnoc(df5, v);
      ScoreGroupSize(df5[..|df5| - 1], v);
    } else {
      assert Scores(df5) == [];
    }
  }

  function TotalCount(counts: seq<(int, nat)>): nat {
    if counts == [] then 0 else TotalCount(counts[..|counts| - 1]) + counts[|counts| - 1].1
  }

  /** Appending one entry to the counts adds that entry's group to both sides. */
  lemma TotalCountStep(df5: seq<Sale>, c: seq<(int, nat)>)
    requires c != [] && c[|c| - 1].1 == |GroupRows(df5, ScoreOf, c[|c| - 1].0)|
    requires TotalCount(c[..|c| - 1]) == GroupSizes(df5, ScoreOf, Keys(c[..|c| - 1]))
    ensures TotalCount(c) == GroupSizes(df5, ScoreOf, Keys(c))
  {
    assert Keys(c[..|c| - 1]) == Keys(c)[..|c| - 1];
  }

  lemma {:induction false} TotalCountWhole(df5: seq<Sale>, c: seq<(int, nat)>)
    requires forall i :: 0 <= i < |c| ==> c[i].1 == |GroupRows(df5, ScoreOf, c[i].0)|
    ensures TotalCount(c) == GroupSizes(df5, ScoreOf, Keys(c))
  {
    if c != [] {
      var p := c[..|c| - 1];
      assert forall i :: 0 <= i < |p| ==> p[i] == c[i];
      TotalCountWhole(df5, p);
      TotalCountStep(df5, c);
    } else {
      assert Keys(c) == [];
    }
  }

  /** The counts of the score distribution add up to the number of rows of `df_5`. */
  lemma ScoreCountsTotal(df5: seq<Sale>)
    ensures TotalCount(ScoreCounts(df5)) == |df5|
  {
    var c, ks := ScoreCounts(df5), Keys(ScoreCounts(df5));
    forall i | 0 <= i < |c| ensures c[i].1 == |GroupRows(df5, ScoreOf, c[i].0)| {
      ScoreGroupSize(df5, c[i].0);
    }
    TotalCountWhole(df5, c);
    forall x | x in df5 ensures ScoreOf(x).Some? && ScoreOf(x).value in ks {
    }
    GroupSizesCover(df5, ScoreOf, ks);
  }
}
