# Olist dashboards: the relational pipelines, in Dafny

The repository is a set of dashboard scripts over the Olist e-commerce CSV files. Beneath
the plotting and widget calls, each script runs a short, sequential pandas pipeline. This
project models those pipelines over in-memory tables and proves what they compute.

- `main.py` imputes missing order timestamps in place. It then inner-joins orders to
  customers and counts distinct customers per state (ranked, top 5) and per (state, city).
- `principal-4.py` left-joins reviews to orders and then to customers. It projects three
  columns, and groups by customer state into a review count and a mean score rounded to two
  decimals.
- `extra-5.py` adds a total-price column to the order items and translates product
  categories. It left-joins reviews to items, sellers and categories, and removes duplicate
  rows. The table then passes through the sidebar filter cascade and is summarised as a score
  distribution and four top-10 bar charts. As written, the script stops at the donut chart,
  before the last three rankings (see "Left out").

Tables are sequences of records. A missing cell (NaN/NaT) is `None`. Timestamps are integer
nanoseconds and money is integer cents. The pandas semantics the scripts rely on are fixed as
explicit definitions:

- `groupby` drops missing keys and sorts its keys (`sort=True`).
- Comparisons are false on a missing value. `isin` is false on one too here, because the lists
  it tests against never hold NaN: the offered states come from `.dropna()` (extra-5.py:36)
  and the surviving sellers from a `groupby` index, which drops NaN keys (extra-5.py:72-89).
- `merge(how='left')` keeps every left row and fans out over duplicate right keys.
- `drop_duplicates` keeps first occurrences.
- `sort_values(ascending=False)` puts NaN last.
- `head(n)` is a prefix.
- `nunique`, `count` and `mean` skip missing values. So `num_reviews` counts the rows with a
  present `review_id`, not the group size.

Files and modules:

- `tables.dfy` (`Tables`): columns, missing values, mask filters, de-duplication, aggregates,
  and `groupby` in first-appearance order.
- `joins.dfy` (`Joins`): inner and left joins as sequences of row pairs, with multiplicity
  lemmas.
- `ranking.dfy` (`Ranking`): descending sort, `head`, label truncation, the top-n chart, and
  the string key order used by the sorted `groupby`.
- `customers.dfy` (`CustomersByState`): `main.py`.
- `reviews.dfy` (`ReviewsByState`): `principal-4.py`.
- `sellers.dfy` (`SellerDashboard`): `extra-5.py`.

Where the comments in the scripts and the code disagree, the model follows the code:

- `pd.Timedelta(1)` at main.py:23 is one nanosecond, not the day the comment announces.
  `CustomersByState.Imputed` proves that the imputed gap is strictly less than a day.
- The late-review removal announced at principal-4.py:18 does not happen.
  `ReviewsByState.EveryReviewIsGrouped` proves that every review reaches the grouping.
- The freight filter at extra-5.py:67 is assigned to `df`, not `df_5`. It therefore only
  decides the per-seller order counts, and through them which sellers survive the filter at
  extra-5.py:89. `SellerDashboard.FreightOutsideRangeIsKept` exhibits a kept row whose freight
  lies outside the selected range.

## Model

| member | source | states |
|---|---|---|
| Tables.Present | main.py:29 | skipping NaN keeps a value exactly when the column holds it present, and never lengthens the column |
| Tables.PresentCount | principal-4.py:22 | each present value is kept exactly as many times as the column holds it, so `count` counts every present cell |
| Tables.PresentInOrder | extra-5.py:36 | `dropna()` keeps the column order of the values it keeps: re-wrapped, they are a sublist of the column |
| Tables.Filter | extra-5.py:42 | a boolean-mask filter keeps each row exactly as often as it occurs when the mask holds, and never otherwise |
| Tables.FilterIsSublist | extra-5.py:51 | a mask filter is an order-preserving sublist of its input |
| Tables.SublistTransitive | extra-5.py:42-59 | filters applied one after another still give an order-preserving sublist of the first input |
| Tables.Dedup | extra-5.py:30 | `drop_duplicates()` keeps exactly the rows of its input, each once |
| Tables.DedupKeepsFirst | extra-5.py:30 | the kept rows appear in the order of their first occurrences |
| Tables.Mean | principal-4.py:23 | a mean is missing (NaN) exactly when there is nothing to average |
| Tables.MeanBounds | principal-4.py:23 | a mean lies between any lower and upper bound of the averaged values |
| Tables.Round2 | principal-4.py:25 | `.round(2)` moves a value by at most half a hundredth, gives a whole number of hundredths, and leaves whole hundredths unchanged |
| Tables.GroupKeys | principal-4.py:21 | the group keys are distinct, and a key is a group key exactly when some row has it present |
| Tables.GroupRows | main.py:29 | a group holds each row as often as the table does when the row's key is that key, and no other rows |
| Tables.GroupBy | extra-5.py:72 | one entry per group key, each holding the aggregate of its group's rows |
| Tables.GroupSizesBound | principal-4.py:21-22 | the groups of distinct keys hold at most as many rows as the table |
| Tables.GroupSizesCover | extra-5.py:111 | when every row's key is among distinct listed keys, their groups hold exactly the table's rows |
| Joins.MatchesOf | main.py:26 | the right rows matched by a left row are those with its key, each as often as it occurs; a missing key matches nothing |
| Joins.InnerJoinCount | main.py:26 | an inner join holds each (left, right) pair with equal keys as often as the product of their multiplicities, and no other pair |
| Joins.LeftJoinMatchCount | principal-4.py:15 | under a left join, matched pairs occur exactly as under an inner join |
| Joins.LeftJoinMissCount | principal-4.py:15 | a left row occurs unmatched, once per copy, exactly when no right row has its key |
| Joins.LeftJoinKeepsLeftRows | principal-4.py:16 | each left row occurs once per matching right row, or once when nothing matches |
| Joins.LeftJoinRow | extra-5.py:28 | each left-join row comes from a left row; its right side matches that row's key, and is missing exactly when no right row has the key |
| Joins.LeftJoinHasRow | extra-5.py:27 | every left row reaches the result of a left join |
| Ranking.Head | main.py:34 | `head(n)` is the prefix of length min(n, size) |
| Ranking.SortDesc | main.py:31 | `sort_values(ascending=False)` is a permutation with non-increasing values, NaN last |
| Ranking.RankGroupsSpec | main.py:28-32 | a ranked group aggregate has one entry per present key, keys unique, each the aggregate of its key's rows, values non-increasing |
| Ranking.TopGroupsSpec | extra-5.py:99 | the top-n groups number min(n, keys); values are non-increasing and keys unique; each entry is a present key with its aggregate; no key left out ranks above a kept one |
| Ranking.Label | extra-5.py:100 | a label is the first `width` characters of the key (or all of them) followed by "..." |
| Ranking.Labelled | extra-5.py:139 | relabelling changes only the keys, entry for entry, and keeps the order of values |
| Ranking.Chart | extra-5.py:99-100 | a top-n bar chart has min(n, keys) bars with non-increasing values; each bar is the label and aggregate of a present key; the bars relabel a top-n ranking of the keys themselves, in which every key left out ranks no higher than every kept key |
| Ranking.StrLessIsOrder | principal-4.py:21 | Python's string `<` (lexicographic by code point) is a strict total order |
| Ranking.PairLessIsOrder | main.py:45 | the order on (state, city) keys, state first, is a strict total order |
| Ranking.SortByKey | main.py:45 | sorting by key gives a permutation with keys strictly ascending |
| Ranking.SortedGroupBy | principal-4.py:21 | `groupby` with its default sort has one entry per present key, keys strictly ascending, each holding the aggregate of its rows |
| CustomersByState.FillApproved | main.py:17-19 | a missing `order_approved_at` becomes the purchase time; a present one is unchanged |
| CustomersByState.FillCarrier | main.py:20-24 | a missing `order_delivered_carrier_date` becomes the approval time plus one nanosecond; a present one is unchanged |
| CustomersByState.Imputed | main.py:19-24 | with both fills in order, an order missing both ends with carrier = purchase + 1 ns; with no purchase time both stay missing; the gap is under a day; no other column changes |
| CustomersByState.ImputeDates | main.py:15-24 | the in-place fills leave every row of the array equal to `Imputed` of its old value, with no row added or removed |
| CustomersByState.MergeCount | main.py:26 | the merge holds each (order, customer) pair with equal `customer_id` once per copy of each, and nothing else |
| CustomersByState.TopStatesSpec | main.py:28-32 | `top_states` has one entry per present state, holding its number of distinct customers, with values non-increasing |
| CustomersByState.Top5States | main.py:34 | `top_5_states` is the prefix of `top_states` of length min(5, states); no state left out has more customers than a kept one |
| CustomersByState.CitySummary | main.py:44-48 | `city_summary` has one row per present (state, city), sorted by state and then city |
| CustomersByState.CitySummaryKeys | main.py:45 | a (state, city) has a row exactly when some merged row has both present with those values |
| CustomersByState.CityRowOfGroup | main.py:46-47 | each `num_clientes` is the number of distinct customers of its (state, city) group |
| CustomersByState.CityWithinState | main.py:44-48 | a (state, city) group has at least one customer, and no more distinct customers than its state |
| CustomersByState.CitySummaryBounds | main.py:44-48 | every `num_clientes` is at least 1 and at most the value of its state in `top_states` |
| ReviewsByState.Project | principal-4.py:17 | the projection keeps every row and exactly `review_id`, `review_score` and `customer_state` |
| ReviewsByState.JoinOrdersKeepsReviews | principal-4.py:15 | each review occurs once per order row with its `order_id`, or once when there is none |
| ReviewsByState.JoinOrdersMiss | principal-4.py:15 | `customer_id` is missing exactly when no order has the review's `order_id`; otherwise it comes from such an order |
| ReviewsByState.JoinCustomersKeepsRows | principal-4.py:16 | each row occurs once per customer row with its `customer_id`, or once when there is none |
| ReviewsByState.JoinCustomersMiss | principal-4.py:16 | `customer_state` is missing exactly when `customer_id` is missing or no customer has it |
| ReviewsByState.EveryReviewIsGrouped | principal-4.py:15-18 | every review reaches the projected table with its id and score, so none is removed |
| ReviewsByState.Summarise | principal-4.py:21-24 | one output row per present state, states strictly ascending |
| ReviewsByState.SummaryRowOf | principal-4.py:21-25 | each output row holds its state's count of present `review_id` and its rounded mean score |
| ReviewsByState.SummariseSpec | principal-4.py:21-25 | each output state occurs in the input; `num_reviews` is at most the group size; `score_medio` is present and within the score range up to rounding |
| ReviewsByState.SummariseKeys | principal-4.py:21 | a state has an output row exactly when some row has that state present |
| ReviewsByState.ReviewsPerStateKeys | principal-4.py:15-25 | over the whole chain of two left merges, projection and groupby, a state has an output row exactly when some review's order was placed by a customer of that state |
| ReviewsByState.TotalReviewsBound | principal-4.py:22 | the review counts of all states add up to at most the number of joined rows |
| ReviewsByState.SummariseExample | principal-4.py:21-25 | two reviews of one state, scored 4 and 2, give one row with 2 reviews and a mean of 3.00 |
| SellerDashboard.WithTotal | extra-5.py:18-19 | `Total prize` is `price + freight_value` in every row, and dropping it gives back the items row for row |
| SellerDashboard.CategoriseKeepsProducts | extra-5.py:22-23 | every product keeps a row in `product_category_5` |
| SellerDashboard.CategoriseRow | extra-5.py:21-24 | each category is the English translation of the product's category, missing exactly when the product has none or it is untranslated |
| SellerDashboard.SalesTable | extra-5.py:30 | after `drop_duplicates()` no two rows are equal, the same rows remain, and they keep the order of their first occurrences |
| SellerDashboard.EveryReviewReachesSales | extra-5.py:27-30 | the three merges and the de-duplication keep every review with its order and score |
| SellerDashboard.SellerStateOfSale | extra-5.py:28 | `seller_state` comes from a seller with the row's `seller_id`, and is missing exactly when no seller has it |
| SellerDashboard.ByState | extra-5.py:42 | the state filter keeps, in order, exactly the rows whose present state is selected |
| SellerDashboard.ByScore | extra-5.py:51 | the score filter keeps, in order, exactly the rows with a score in the range |
| SellerDashboard.ByTotal | extra-5.py:59 | the total-price filter keeps, in order, exactly the rows with a present total in the range |
| SellerDashboard.ByFreight | extra-5.py:67 | the freight filter keeps exactly the rows with a present freight in the range |
| SellerDashboard.BySeller | extra-5.py:89 | the seller filter keeps, in order, exactly the rows whose present seller is listed |
| SellerDashboard.ActiveSellersSpec | extra-5.py:72-88 | a seller survives `filtered_order_df` exactly when it has rows in `df` and its number of distinct orders is in range |
| SellerDashboard.OrderCountEmpty | extra-5.py:72-76 | `order_count` is empty exactly when no row of `df` has a seller |
| SellerDashboard.ApplyFilters | extra-5.py:36-89 | fails exactly when the state filter leaves no row, or when no filtered row has a seller; otherwise it returns the input's rows in order, each kept exactly as often as it occurs when it passes the state, score and total filters and its seller is active; kept rows have a seller, a state and a total |
| SellerDashboard.FreightOutsideRangeIsKept | extra-5.py:67-89 | a row whose freight lies outside the selected range can still be kept |
| SellerDashboard.DefaultStatesKeepPresent | extra-5.py:36-42 | with all offered states selected, the state filter keeps exactly the rows with a seller state |
| SellerDashboard.TopSellers | extra-5.py:99-100 | at most ten sellers, labelled by 10 characters, with non-increasing mean scores; each bar is a present seller's mean; the bars relabel a ranking of seller ids in which no seller left out ranks higher |
| SellerDashboard.TopSellersScoreRange | extra-5.py:99 | each charted mean score lies within the range of the scores |
| SellerDashboard.TopCategories | extra-5.py:138-139 | at most ten categories, labelled by 15 characters, with non-increasing row counts; the bars relabel a ranking of categories in which no category left out is more frequent |
| SellerDashboard.TopRevenue | extra-5.py:150-151 | at most ten sellers with non-increasing sums of `Total prize`; the bars relabel a ranking of seller ids in which no seller left out earns more |
| SellerDashboard.TopShipping | extra-5.py:162-163 | at most ten categories with non-increasing mean freight; the bars relabel a ranking of categories in which no category left out ranks higher |
| SellerDashboard.ScoreCounts | extra-5.py:111 | the distribution lists each present score once, strictly ascending, with the positive number of rows that have it |
| SellerDashboard.ScoreCountsTotal | extra-5.py:111 | the counts of the distribution add up to the number of rows |

## Left out

- CSV loading, the Streamlit sidebar widgets and all matplotlib/seaborn/plotly drawing are I/O.
  The slider and multiselect values are the fields of `SellerDashboard.Selection`, an input.
- The bounds offered by the sliders (extra-5.py:45-49, 54-58, 62-66, 79-85) are not modelled.
  The selected ranges are arbitrary inputs. Only the failures of `int()` on the minimum of an
  empty column are kept (extra-5.py:47 and 75-76), as error results.
- The drawing of the donut chart at extra-5.py:112-131 is not modelled. Its failure is described below.
- `pd.to_datetime` parsing (main.py:15) is a foreign parser. Timestamps arrive as optional
  integer nanoseconds.
- Floating point: money is exact integer cents and means are exact reals. `round(2)` on cents
  (extra-5.py:19) is therefore the identity. `.round(2)` of a mean uses round-half-even on the
  exact value, not on the nearest double.
- The float sliders over a column holding NaN (extra-5.py:56, 64) are not modelled, because
  their bounds are inputs here.
- Ranking.SortDesc: the order among equal values is left open, because the default sort is not
  stable. The rankings state only non-increasing order, membership and length.
- CustomersByState.ImputeDates: pandas chained assignment and copy-on-write around
  `fillna(inplace=True)` are not modelled. The fills are the intended in-place column update.
- Joins.MatchesOf, Joins.InnerJoin, Joins.LeftJoin: the right-hand key columns (customer,
  order, seller, product and category identifiers) are taken to be never missing. `pd.merge`
  would match a NaN left key to NaN right keys; the model has no such matches, and a left row
  with a missing key matches nothing.
- ReviewsByState.JoinCustomersMiss: `customer_state` of the customers table is taken to be never
  missing (`CustomerRef.state` is a `string`). So a missing state after the merge means that no
  customer matched. A customer row with a NaN state would also give a missing state. The
  `CustomersByState` model keeps the same column optional, because `main.py` groups on it
  directly and `groupby` must drop NaN there.
- ReviewsByState.SummariseSpec: `review_score` is taken to be never missing (`Review.score` is an
  `int`). So every state's `score_medio` is present. A state whose scores were all NaN would
  get a NaN mean.
- SellerDashboard.CategoriseRow: `product_category_name_english` of the translation table is
  taken to be never missing (`Translation.english` is a `string`). So a missing category means
  that the product has none or that it has no translation row.
- SellerDashboard.SellerStateOfSale: `seller_state`, `seller_city` and
  `seller_zip_code_prefix` of the sellers table are taken to be never missing (fields of
  `Seller`). So a missing `seller_state` means that no seller matched.
- SellerDashboard.TopSellersScoreRange: `review_score` is taken to be never missing in `df_5`
  (`Sale.score` is an `int`). So every charted mean score is present.
- SellerDashboard.TopCategories, SellerDashboard.TopRevenue, SellerDashboard.TopShipping: as
  written, the script never reaches them. The donut chart's `ax5.pie` call (extra-5.py:116-124)
  passes `labels_5=` and `colors_5=`, which `Axes.pie` does not accept, so the run raises
  `TypeError` at extra-5.py:116. These three members model what extra-5.py:138-163 would compute
  if that call were corrected. The score distribution (extra-5.py:111) and the seller chart
  (extra-5.py:99-100) come before it and are reached.
