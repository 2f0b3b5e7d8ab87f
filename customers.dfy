/**
 main.py: the orders table has its missing approval and carrier-handover timestamps
 imputed in place, is inner-joined to the customers table on `customer_id`, and the
 joined table is summarised as the number of distinct customers per state (ranked, top 5)
 and per (state, city).
 */
module CustomersByState {
  import opened Tables
  import opened Joins
  import opened Ranking

  /** A `datetime64[ns]` cell: nanoseconds since the epoch; `None` is NaT. */
  type Timestamp = Option<int>

  /** `pd.Timedelta(1)`: one nanosecond. */
  const CarrierDelay: int := 1

  /** One day in nanoseconds, the delay the imputation is documented to add. */
  const OneDay: int := 86_400_000_000_000

  datatype Order = Order(
    orderId: string,
    customerId: string,
    status: string,
    purchasedAt: Timestamp,
    approvedAt: Timestamp,
    carrierAt: Timestamp,
    deliveredAt: Timestamp,
    estimatedAt: Timestamp)

  datatype Customer = Customer(
    customerId: string,
    uniqueId: string,
    zipPrefix: int,
    city: Option<string>,
    state: Option<string>)

  /** A row of the merged table. */
  type Merged = (Order, Customer)

  /** `t + delta`; NaT stays NaT. */
  function Shift(t: Timestamp, delta: int): Timestamp {
    match t
    case None => None
    case Some(v) => Some(v + delta)
  }

  /** Rule of main.py:19 for one row: a missing approval time becomes the purchase time. */
  function FillApproved(o: Order): (r: Order)
    ensures o.approvedAt.Some? ==> r == o
    ensures o.approvedAt.None? ==> r == o.(approvedAt := o.purchasedAt)
  {
    if o.approvedAt.Some? then o else o.(approvedAt := o.purchasedAt)
  }

  /** Rule of main.py:22-24 for one row: a missing carrier date becomes the approval time plus `pd.Timedelta(1)`. */
  function FillCarrier(o: Order): (r: Order)
    ensures o.carrierAt.Some? ==> r == o
    ensures o.carrierAt.None? ==> r == o.(carrierAt := Shift(o.approvedAt, CarrierDelay))
  {
    if o.carrierAt.Some? then o else o.(carrierAt := Shift(o.approvedAt, CarrierDelay))
  }

  /**
   Both rules, in the order main.py applies them. The carrier rule sees the already filled
   approval time, so an order missing both ends with carrier = purchase + 1 ns; without a
   purchase time both stay missing. Nothing else in the row changes.
   */
  function Imputed(o: Order): (r: Order)
    ensures r.approvedAt == (if o.approvedAt.Some? then o.approvedAt else o.purchasedAt)
    ensures o.carrierAt.Some? ==> r.carrierAt == o.carrierAt
    ensures o.carrierAt.None? && o.approvedAt.Some? ==> r.carrierAt == Some(o.approvedAt.value + 1)
    ensures o.carrierAt.None? && o.approvedAt.None? && o.purchasedAt.Some? ==> r.carrierAt == Some(o.purchasedAt.value + 1)
    ensures o.carrierAt.None? && o.approvedAt.None? && o.purchasedAt.None? ==> r.approvedAt.None? && r.carrierAt.None?
    ensures o.carrierAt.None? && r.approvedAt.Some? ==> r.carrierAt.Some? && 0 < r.carrierAt.value - r.approvedAt.value < OneDay
    ensures r.(approvedAt := o.approvedAt, carrierAt := o.carrierAt) == o
  {
    FillCarrier(FillApproved(o))
  }

  /**
   main.py:19-24: the two `fillna(..., inplace=True)` column updates, one pass over the
   table each. The table keeps its rows; each row ends as `Imputed` of what it was.
   */
  method ImputeDates(orders: array<Order>)
    modifies orders
    ensures forall i :: 0 <= i < orders.Length ==> orders[i] == Imputed(old(orders[i]))
  {
    for i := 0 to orders.Length
      invariant forall k :: 0 <= k < i ==> orders[k] == FillApproved(old(orders[k]))
      invariant forall k :: i <= k < orders.Length ==> orders[k] == old(orders[k])
    {
      orders[i] := FillApproved(orders[i]);
    }
    for i := 0 to orders.Length
      invariant forall k :: 0 <= k < i ==> orders[k] == FillCarrier(FillApproved(old(orders[k])))
      invariant forall k :: i <= k < orders.Length ==> orders[k] == FillApproved(old(orders[k]))
    {
      orders[i] := FillCarrier(orders[i]);
    }
  }

  function OrderKey(o: Order): Option<string> {
    Some(o.customerId)
  }

  function CustomerKey(c: Customer): string {
    c.customerId
  }

  /** main.py:26, `pd.merge(df_orders, df_customers, on='customer_id', how='inner')`. */
  function Merge(orders: seq<Order>, customers: seq<Customer>): seq<Merged> {
    InnerJoin(orders, customers, OrderKey, CustomerKey)
  }

  /** The merge holds each (order, customer) pair with equal `customer_id` once per copy of each; nothing else. */
  lemma MergeCount(orders: seq<Order>, customers: seq<Customer>, o: Order, c: Customer)
    ensures multiset(Merge(orders, customers))[(o, c)] ==
            if o.customerId == c.customerId then multiset(orders)[o] * multiset(customers)[c] else 0
  {
    InnerJoinCount(orders, customers, OrderKey, CustomerKey, o, c);
  }

  function StateOf(m: Merged): Option<string> {
    m.1.state
  }

  function StateCityOf(m: Merged): Option<(string, string)> {
    if m.1.state.Some? && m.1.city.Some? then Some((m.1.state.value, m.1.city.value)) else None
  }

  function CustomerIds(g: seq<Merged>): seq<string> {
    Column(g, (m: Merged) => m.0.customerId)
  }

  /** `['customer_id'].nunique()` of a group. */
  function DistinctCustomers(g: seq<Merged>): nat {
    NUnique(CustomerIds(g))
  }

  function DistinctCustomersScore(g: seq<Merged>): Score {
    Some(DistinctCustomers(g) as real)
  }

  /** main.py:28-32, `groupby('customer_state')['customer_id'].nunique().sort_values(ascending=False)`. */
  function TopStates(merged: seq<Merged>): seq<(string, Score)> {
    RankGroups(merged, StateOf, DistinctCustomersScore)
  }

  /**
   main.py:34, `top_states.head(5)`: the first min(5, number of states) entries of
   `top_states`, values non-increasing, and no state left out has more customers than a kept one.
   */
  function Top5States(merged: seq<Merged>): (r: seq<(string, Score)>)
    ensures r == TopStates(merged)[..Min(5, |TopStates(merged)|)]
    ensures |r| == Min(5, |GroupKeys(merged, StateOf)|)
    ensures NonIncreasing(r)
    ensures forall j, i :: 5 <= j < |TopStates(merged)| && 0 <= i < |r| ==> AtLeast(r[i].1, TopStates(merged)[j].1)
  {
    RankGroupsShape(merged, StateOf, DistinctCustomersScore);
    HeadOfRanked(TopStates(merged), 5);
    Head(TopStates(merged), 5)
  }

  datatype CityRow = CityRow(state: string, city: string, numClientes: nat)

  /** The grouping by (state, city) with its default key sort: pairs ascending, state first. */
  function CityGroups(merged: seq<Merged>): seq<((string, string), nat)> {
    PairLessIsOrder();
    SortedGroupBy(merged, StateCityOf, DistinctCustomers, PairLess)
  }

  function CityRowOf(e: ((string, string), nat)): CityRow {
    CityRow(e.0.0, e.0.1, e.1)
  }

  /** Rows strictly ascending by (state, city), hence no pair repeated. */
  predicate CitiesAscending(r: seq<CityRow>) {
    forall i, j :: 0 <= i < j < |r| ==> PairLess((r[i].state, r[i].city), (r[j].state, r[j].city))
  }

  /** main.py:44-48, `groupby(['customer_state', 'customer_city'])['customer_id'].nunique().reset_index(name='num_clientes')`. */
  function CitySummary(merged: seq<Merged>): (r: seq<CityRow>)
    ensures |r| == |GroupKeys(merged, StateCityOf)|
    ensures CitiesAscending(r)
  {
    Column(CityGroups(merged), CityRowOf)
  }

  /** Row `i` of `city_summary` is the distinct-customer count of a (state, city) group of the input. */
  lemma CityRowOfGroup(merged: seq<Merged>, i: nat)
    requires i < |CitySummary(merged)|
    ensures (CitySummary(merged)[i].state, CitySummary(merged)[i].city) == Keys(CityGroups(merged))[i]
    ensures (CitySummary(merged)[i].state, CitySummary(merged)[i].city) in GroupKeys(merged, StateCityOf)
    ensures CitySummary(merged)[i].numClientes ==
            DistinctCustomers(GroupRows(merged, StateCityOf, (CitySummary(merged)[i].state, CitySummary(merged)[i].city)))
  {
    assert CityGroups(merged)[i] in CityGroups(merged);
  }

  lemma StateCityParts(m: Merged, k: (string, string))
    requires StateCityOf(m) == Some(k)
    ensures m.1.state == Some(k.0) && m.1.city == Some(k.1)
  {
  }

  /** `city_summary` has a row for this state and city. */
  predicate HasCity(r: seq<CityRow>, state: string, city: string) {
    exists i :: 0 <= i < |r| && r[i].state == state && r[i].city == city
  }

  /** Each row of `city_summary` comes from a merged row with that state and city, and counts its group's customers. */
  lemma CityRowSource(merged: seq<Merged>, i: nat)
    requires i < |CitySummary(merged)|
    ensures exists m :: m in merged && StateCityOf(m) == Some((CitySummary(merged)[i].state, CitySummary(merged)[i].city)) &&
              CitySummary(merged)[i].numClientes == DistinctCustomers(GroupRows(merged, StateCityOf, StateCityOf(m).value))
  {
    var row := CitySummary(merged)[i];
    var k := (row.state, row.city);
    CityRowOfGroup(merged, i);
    ColumnHas(merged, StateCityOf, Some(k));
  }

  /** Each (state, city) of a merged row has its row in `city_summary`. */
  lemma CityKeyHasRow(merged: seq<Merged>, m: Merged)
    requires m in merged && StateCityOf(m).Some?
    ensures HasCity(CitySummary(merged), StateCityOf(m).value.0, StateCityOf(m).value.1)
  {
    var k := StateCityOf(m).value;
    var ks := Keys(CityGroups(merged));
    assert k in ks by {
      ColumnHas(merged, StateCityOf, Some(k));
      assert k in GroupKeys(merged, StateCityOf);
    }
    var i :| 0 <= i < |ks| && ks[i] == k;
    CityRowOfGroup(merged, i);
    var r := CitySummary(merged);
    assert r[i].state == k.0 && r[i].city == k.1;
  }

  /** A row of `city_summary` comes from a merged row with that state and city, both present. */
  lemma CityRowHasSource(merged: seq<Merged>, state: string, city: string)
    requires HasCity(CitySummary(merged), state, city)
    ensures exists m :: m in merged && m.1.state == Some(state) && m.1.city == Some(city)
  {
    var r := CitySummary(merged);
    var i :| 0 <= i < |r| && r[i].state == state && r[i].city == city;
    CityRowSource(merged, i);
    var m :| m in merged && StateCityOf(m) == Some((state, city));
    StateCityParts(m, (state, city));
  }

  /** Every output (state, city) occurs in the input with both parts present, and every such pair has its row. */
  lemma CitySummaryKeys(merged: seq<Merged>, state: string, city: string)
    ensures HasCity(CitySummary(merged), state, city) <==>
            (exists m :: m in merged && m.1.state == Some(state) && m.1.city == Some(city))
  {
    if exists m :: m in merged && m.1.state == Some(state) && m.1.city == Some(city) {
      var m :| m in merged && m.1.state == Some(state) && m.1.city == Some(city);
      assert StateCityOf(m) == Some((state, city));
      CityKeyHasRow(merged, m);
    }
    if HasCity(CitySummary(merged), state, city) {
      CityRowHasSource(merged, state, city);
    }
  }

  lemma CustomerIdsIn(g: seq<Merged>, id: string)
    ensures id in CustomerIds(g) <==> exists m :: m in g && m.0.customerId == id
  {
    if id in CustomerIds(g) {
      var i :| 0 <= i < |g| && CustomerIds(g)[i] == id;
      assert g[i] in g;
    }
    if exists m :: m in g && m.0.customerId == id {
      var m :| m in g && m.0.customerId == id;
      var i :| 0 <= i < |g| && g[i] == m;
      assert CustomerIds(g)[i] == id;
    }
  }

  /**
   `top_states` has one entry per state present in the merged table (missing states form no
   group), its value is that state's number of distinct `customer_id`, and values never increase.
   */
  lemma TopStatesSpec(merged: seq<Merged>)
    ensures NonIncreasing(TopStates(merged))
    ensures Distinct(Keys(TopStates(merged)))
    ensures forall s :: s in Keys(TopStates(merged)) <==> exists m :: m in merged && m.1.state == Some(s)
    ensures forall e :: e in TopStates(merged) ==>
              e.1 == Some(NUnique(CustomerIds(GroupRows(merged, StateOf, e.0))) as real)
  {
    RankGroupsSpec(merged, StateOf, DistinctCustomersScore);
  }

  /** A (state, city) group has at least one customer, and no more distinct customers than its state. */
  lemma CityWithinState(merged: seq<Merged>, m: Merged)
    requires m in merged && StateCityOf(m).Some?
    ensures 1 <= DistinctCustomers(GroupRows(merged, StateCityOf, StateCityOf(m).value))
                <= DistinctCustomers(GroupRows(merged, StateOf, m.1.state.value))
  {
    var k, state := StateCityOf(m).value, m.1.state.value;
    var cityGroup := GroupRows(merged, StateCityOf, k);
    var stateGroup := GroupRows(merged, StateOf, state);
    InGroup(merged, StateCityOf, k, m);
    CustomerIdsIn(cityGroup, m.0.customerId);
    assert m.0.customerId in ValueSet(CustomerIds(cityGroup));
    forall id | id in ValueSet(CustomerIds(cityGroup)) ensures id in ValueSet(CustomerIds(stateGroup)) {
      CustomerIdsIn(cityGroup, id);
      var x :| x in cityGroup && x.0.customerId == id;
      InGroup(merged, StateCityOf, k, x);
      InGroup(merged, StateOf, state, x);
      CustomerIdsIn(stateGroup, id);
    }
    SubsetCard(ValueSet(CustomerIds(cityGroup)), ValueSet(CustomerIds(stateGroup)));
  }

  /** A state present in the merged table has its entry in `top_states`. */
  lemma TopStatesEntry(merged: seq<Merged>, m: Merged)
    requires m in merged && m.1.state.Some?
    ensures exists e :: e in TopStates(merged) && e.0 == m.1.state.value &&
              e.1 == Some(DistinctCustomers(GroupRows(merged, StateOf, m.1.state.value)) as real)
  {
    var t := TopStates(merged);
    TopStatesSpec(merged);
    assert m.1.state.value in Keys(t);
    var j :| 0 <= j < |t| && Keys(t)[j] == m.1.state.value;
    assert t[j] in t;
  }

  /** The distinct-customer count of a present (state, city) is positive and bounded by its state's entry in `top_states`. */
  lemma CityCountBound(merged: seq<Merged>, m: Merged, state: string, city: string, n: nat)
    requires m in merged && StateCityOf(m) == Some((state, city))
    requires n == DistinctCustomers(GroupRows(merged, StateCityOf, (state, city)))
    ensures n >= 1
    ensures exists e :: e in TopStates(merged) && e.0 == state && e.1.Some? && n as real <= e.1.value
  {
    StateCityParts(m, (state, city));
    CityWithinState(merged, m);
    TopStatesEntry(merged, m);
  }

  lemma CityRowBound(merged: seq<Merged>, i: nat)
    requires i < |CitySummary(merged)|
    ensures CitySummary(merged)[i].numClientes >= 1
    ensures exists e :: e in TopStates(merged) && e.0 == CitySummary(merged)[i].state && e.1.Some? &&
              CitySummary(merged)[i].numClientes as real <= e.1.value
  {
    var row := CitySummary(merged)[i];
    CityRowSource(merged, i);
    var m :| m in merged && StateCityOf(m) == Some((row.state, row.city)) &&
             row.numClientes == DistinctCustomers(GroupRows(merged, StateCityOf, StateCityOf(m).value));
    CityCountBound(merged, m, row.state, row.city, row.numClientes);
  }

  /**
   `city_summary` has one row per (state, city) present; each `num_clientes` is at least 1
   and at most the distinct-customer count of its state in `top_states`.
   */
  lemma CitySummaryBounds(merged: seq<Merged>)
    ensures forall row :: row in CitySummary(merged) ==>
              && row.numClientes >= 1
              && exists e :: e in TopStates(merged) && e.0 == row.state && e.1.Some? &&
                   row.numClientes as real <= e.1.value
  {
    forall row | row in CitySummary(merged)
      ensures row.numClientes >= 1
      ensures exists e :: e in TopStates(merged) && e.0 == row.state && e.1.Some? && row.numClientes as real <= e.1.value
    {
      var i :| 0 <= i < |CitySummary(merged)| && CitySummary(merged)[i] == row;
      CityRowBound(merged, i);
    }
  }
}
