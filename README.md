# E-commerce normaliser and aggregation engine, in Dafny

This project models the two pieces of logic at the heart of a small
e-commerce data pipeline and proves properties about them.

- **Record normaliser and cart flattener** (`transform/clean_data.py`).
  Raw user, product and cart records are decoded JSON objects in which any
  key may be missing. They become flat rows of the users, products and carts
  tables:
  - users are renamed and defaulted field by field, and `street` is built
    from the nested address;
  - products are kept only when their price (0 if absent) is above 50;
  - every cart line item becomes one row, which carries the cart-wide
    `total_cart_value`.

  Each cleaning function loops and appends, so each is an imperative
  `method` whose loop invariants tie the built table to a specification
  function. The lemmas state what those functions mean.
- **Aggregation engine** (`transform/transform_data.py`). Three SQL queries
  build summaries over the flat tables:
  - the user summary: users JOIN carts, GROUP BY the user's columns,
    SUM, ORDER BY `total_spent DESC`;
  - the category summary: products JOIN carts, GROUP BY category,
    SUM, ORDER BY `total_sales DESC`;
  - cart details: carts JOIN users JOIN products, ORDER BY
    `cart_id, product_id`.

  Each query is a pure function over sequences of rows. The inner join is a
  comprehension over pairs of rows, GROUP BY with SUM is a recursive fold,
  and ORDER BY is an insertion sort proved sorted and a permutation.

Modules:

- `Wrappers`: `Option` and its `GetOr`, which stands for Python's `.get(key, default)`.
- `CleanData`: raw records, flat rows, and the three cleaning methods.
- `Sorting`: a sort by any total preorder, proved sorted and a permutation.
- `Grouping`: GROUP BY with SUM as a fold. It is proved equal to the per-key
  sums, with one group per key that occurs.
- `Join`: the inner join of a table with the carts table, turned into the
  facts that are grouped. The sums of those facts are double sums over the
  joined pairs.
- `TransformData`: the three queries.

Modelling choices:

- Money is an exact `real`. Quantities and ages are `int`.
- An identifier that is missing from the raw record is `None`, and it stays
  `None` in the flat rows. Downstream it is SQL NULL. `KeyMatch` is the SQL
  equality of two nullable ids: NULL never matches anything, not even NULL.
- ORDER BY on a nullable column puts NULL first, as in BigQuery's ascending
  order.

## Model

| member | source | states |
|---|---|---|
| `CleanData.CleanUsersData` | transform/clean_data.py:16-41 | one row per input user record, in input order; row `i` is the cleaned form of user `i`; a missing `users` key gives an empty table |
| `CleanData.MissingUserFieldsDefault` | transform/clean_data.py:22-36 | a missing `id` stays absent; missing `firstName`, `lastName` and `gender` become `""`, a missing `age` becomes 0; a missing `city` or `postalCode` in the address (or a missing address) gives `""`; a user without an address gets street `", "` |
| `CleanData.PresentUserFieldsCopied` | transform/clean_data.py:22-37 | `user_id` is the record's `id`; every present name, gender and age field, and the address's present `city` and `postalCode`, is copied unchanged |
| `CleanData.StreetFormat` | transform/clean_data.py:22-23 | the street is the address line, then `", "`, then the suite, each defaulting to `""`; a user with no address or an empty one gets `", "` |
| `CleanData.CleanProductsData` | transform/clean_data.py:43-60 | the products table is the kept products, cleaned, in input order; a missing `products` key gives an empty table |
| `CleanData.KeptProductsAppend` | transform/clean_data.py:47-58 | filtering distributes over concatenation of the input, so kept products keep their relative order |
| `CleanData.KeptProductsSingle` | transform/clean_data.py:49-56 | one product is kept iff its price (0 when absent) exceeds 50; a product with no price is dropped; a kept row carries the product's own price |
| `CleanData.CleanProductFields` | transform/clean_data.py:50-56 | a kept product's row copies `id` to `productId`, `title` to `name`, `category`, `brand` and `price`; a missing string field becomes `""` and a missing id stays absent |
| `CleanData.KeptProductsMembership` | transform/clean_data.py:47-58 | a row is in the products table iff it is the cleaned form of an input product whose price is above 50; every kept row's price is above 50 |
| `CleanData.ItemRows` | transform/clean_data.py:75-85 | a cart with n line items yields exactly n rows; row k is built from item k with the cart's id, user id and total |
| `CleanData.CleanCartsData` | transform/clean_data.py:62-87 | the carts table is the rows of each cart in cart order, computed by nested loops; a missing `carts` key gives an empty table |
| `CleanData.FlattenCartsAppend` | transform/clean_data.py:66-85 | flattening distributes over concatenation of the cart list |
| `CleanData.ItemCountAppend` | transform/clean_data.py:66-75 | the sum of line-item counts distributes over concatenation of the cart list |
| `CleanData.FlattenCartsSplit` | transform/clean_data.py:66-85 | the rows of a cart list split around one cart are the rows before it, that cart's rows, then the rows after it |
| `CleanData.FlattenCartsLength` | transform/clean_data.py:66-87 | the number of rows is the sum over carts of their line-item counts |
| `CleanData.FlattenCartsAt` | transform/clean_data.py:66-85 | row `ItemCount(cs[..i]) + k` is the row for item k of cart i, carrying cart i's id, user id and total; rows are in cart order, then item order |
| `CleanData.EmptyCartNoRows` | transform/clean_data.py:72-75 | a cart with no `products` key or an empty list yields no rows |
| `CleanData.CartRowsShareTotal` | transform/clean_data.py:67-82 | every row of a cart carries the cart's id, its user id and one shared total |
| `CleanData.ItemRowsValue` | transform/clean_data.py:71-83 | the sum of `quantity * price` over a cart's rows equals the generator sum over its items, missing quantity or price counting as 0 |
| `CleanData.CartTotalReproduced` | transform/clean_data.py:71-82 | summing `quantity * price` over a cart's rows gives back the `total_cart_value` that each of its rows carries |
| `CleanData.TwoItemCartExample` | transform/clean_data.py:71-83 | items (quantity 2, price 20) and (quantity 1, price 5) give two rows, each with total 45 |
| `Sorting.Insert` | transform/transform_data.py:47-48 | inserting into a sorted sequence gives a sorted sequence with the same elements plus the new one |
| `Sorting.SortBy` | transform/transform_data.py:47-48 | the ORDER BY result is sorted by the given total preorder and is a permutation of its input |
| `Sorting.PermutationMembers` | transform/transform_data.py:101-102 | a permutation has the same members as the sequence it permutes: sorting adds and drops nothing |
| `Sorting.PermutationKeepsDistinct` | transform/transform_data.py:45-48 | if the keys of a sequence are distinct, the keys of any permutation of it are distinct |
| `Grouping.AddFact` | transform/transform_data.py:35-36 | adding one joined row to the groups adds its amount and count to the group of its key, creating that group if needed, and keeps keys distinct |
| `Grouping.GroupSum` | transform/transform_data.py:45-46 | GROUP BY as a fold: the keys are distinct, there is a group exactly for each key that occurs, and each group's sums are the sums over the rows with that key |
| `Grouping.GroupSumTotals` | transform/transform_data.py:35-36 | each group's `total` and `items` are the sums over the facts with its key |
| `Grouping.TotalAppend` | transform/transform_data.py:35-36 | the per-key sums distribute over concatenation |
| `Grouping.TotalDescPreorder` | transform/transform_data.py:47-48 | "total descending" is a total preorder, so it can be sorted by |
| `Grouping.RankedGroups` | transform/transform_data.py:45-48 | grouped and ordered: a permutation of the groups, non-increasing by total, one group per occurring key, with that key's sums |
| `Join.FactsForSums` | transform/transform_data.py:39-44 | the rows joined with one cart row add up to the double sum over matching pairs with that key |
| `Join.JoinSums` | transform/transform_data.py:35-44 | over the whole join, the per-key sums are the sums of `quantity * price` and of `quantity` over the joined pairs whose key is k |
| `Join.JoinOccurs` | transform/transform_data.py:39-46 | a key occurs in the join iff some row with that key joins some cart row |
| `Join.UnjoinedCartRowIgnored` | transform/transform_data.py:61-66 | a cart row that no row joins can be removed without changing the joined facts |
| `Join.UnjoinedRowIgnored` | transform/transform_data.py:39-44 | a row that joins no cart row can be removed without changing the joined facts |
| `Join.PairsSingle` | transform/transform_data.py:43-44 | if only row n can match a cart row under key k, the pair sums are row n's contribution alone |
| `Join.PairsZero` | transform/transform_data.py:43-44 | if no row matches a cart row under key k, the pair sums are zero |
| `TransformData.UserSummary` | transform/transform_data.py:28-51 | the user summary is non-increasing by `total_spent`, and no two rows share the GROUP BY columns |
| `TransformData.UserSummaryKeys` | transform/transform_data.py:39-46 | every row's user columns come from a user with a matching cart row, and every user with a matching cart row has a row with its columns |
| `TransformData.UserSummarySums` | transform/transform_data.py:33-46 | each row's `total_spent` and `total_items` are the sums of `quantity * price` and `quantity` over the joined pairs of its users and their cart rows |
| `TransformData.SameKey` | transform/transform_data.py:43-44 | two ids that equal the same non-NULL id equal each other |
| `TransformData.JoinedTotalsOfUser` | transform/transform_data.py:35-46 | with unique user ids, the joined sums for a user's columns are the sums over that user's cart rows |
| `TransformData.UserSummaryOfUser` | transform/transform_data.py:33-46 | with unique user ids, a user with a cart row has a summary row with its id, first name, age and city, whose totals are the sums over its cart rows |
| `TransformData.UserWithoutCartRowsAbsent` | transform/transform_data.py:39-44 | a user whose id matches no cart row has no summary row, and a NULL id matches none |
| `TransformData.UserWithoutCartRowsIgnored` | transform/transform_data.py:39-44 | adding a user with no cart rows anywhere in the users table leaves the user summary unchanged |
| `TransformData.CategorySummary` | transform/transform_data.py:53-73 | the category summary is non-increasing by `total_sales`, with one row per category at most |
| `TransformData.CategorySummaryKeys` | transform/transform_data.py:61-68 | each row's category is that of a product some cart row refers to, and each such category has a row |
| `TransformData.CategorySummarySums` | transform/transform_data.py:58-68 | each row's `total_sales` and `total_items_sold` are the sums over the joined pairs of a product of that category and a cart row |
| `TransformData.JoinedTotalsOfCategory` | transform/transform_data.py:58-68 | with unique product ids, a category's joined sums are the sums over the cart rows that refer to a product of that category |
| `TransformData.CategorySummaryTotals` | transform/transform_data.py:57-68 | with unique product ids, each row's totals are the sums over the cart rows that refer to a product of its category |
| `TransformData.UnmatchedCartRowIgnoredByCategories` | transform/transform_data.py:61-66 | a cart row whose product id matches no product, such as one the price filter removed, leaves the category summary unchanged |
| `TransformData.DetailLePreorder` | transform/transform_data.py:101-102 | ordering by `cart_id`, then `product_id`, with NULLs first, is a total preorder |
| `TransformData.CartDetails` | transform/transform_data.py:75-105 | the cart details are a permutation of the joined triples, ascending by `cart_id`, then by `product_id` among rows with the same `cart_id` |
| `TransformData.DetailsWithUserMembers` | transform/transform_data.py:97-100 | for one cart row and one user, the detail rows are exactly those of the products matching the cart row |
| `TransformData.DetailsForMembers` | transform/transform_data.py:91-100 | for one cart row, the detail rows are exactly those of the matching users and matching products |
| `TransformData.JoinDetailsMembers` | transform/transform_data.py:79-100 | a row is in the three-way join iff it is built from a cart row, a user with its user id and a product with its product id |
| `TransformData.CartDetailsMembers` | transform/transform_data.py:79-102 | a row is in the cart details iff it copies the cart columns, the first and last name of a user with the same user id, and the name, category and brand of a product with the same product id |
| `TransformData.JoinDetailsAppend` | transform/transform_data.py:91-100 | the three-way join distributes over concatenation of the carts table |
| `TransformData.NoProductNoDetails` | transform/transform_data.py:97-100 | a cart row whose product id matches no product yields no rows with a given user |
| `TransformData.UnmatchedCartRowNoDetails` | transform/transform_data.py:91-100 | a cart row that matches no user, or no product, yields no detail rows |
| `TransformData.UnmatchedCartRowDropped` | transform/transform_data.py:91-102 | removing such a cart row leaves the cart details unchanged |
| `TransformData.DetailsWithUserAtMostOne` | transform/transform_data.py:97-100 | with unique product ids, a cart row and a user yield at most one row |
| `TransformData.DetailsForAtMostOne` | transform/transform_data.py:91-100 | with unique user and product ids, a cart row yields at most one detail row |
| `TransformData.JoinDetailsAtMostOnePerCartRow` | transform/transform_data.py:91-100 | with unique ids, the three-way join has at most as many rows as the carts table |
| `TransformData.CartDetailsAtMostOnePerCartRow` | transform/transform_data.py:91-102 | with unique ids, the cart details have at most as many rows as the carts table (the per-cart-row bound is `DetailsForAtMostOne`) |

## Left out

- File and CSV I/O: creating directories, loading JSON and saving tables (`transform/clean_data.py:6-14`, `89-121`). These are I/O, not logic. The cleaning methods take the decoded JSON document as a value.
- pandas `DataFrame` construction and its type coercion, such as filling missing numbers with NaN. This is not core logic. Flat rows are Dafny records.
- BigQuery plumbing: `execute_query`, `run_all_transformations`, the client, write-truncate and the atomicity of "create or replace". These are foreign calls. Only what the queries compute is modelled.
- `extract/extract_data.py`, `load/load_to_bigquery.py`, `main.py` and `config.py` are not part of this model. They do network and file I/O, orchestration and constants only.
- Floating-point behaviour is not modelled: prices, line values and totals are exact reals, so IEEE rounding and the effect of summation order are not captured.
- Ill-typed raw values, such as a price that is a string or an explicit JSON null, are not modelled: every present field has its declared type. In the Python code, such a value would make `>` or `*` raise.
- Tie order: when two summary rows have equal sort keys, SQL `ORDER BY` leaves their relative order open. The model proves sortedness and permutation only; no order among ties is claimed.
- A missing `id`, `userId` or item `id` is not an error: the code never raises one, so it becomes `None`, and NULL keys never join.
- Uniqueness of `user_id` and `product_id` is not enforced by any operation. The lemmas that need it take `UniqueUserIds` or `UniqueProductIds` as a precondition.
- TransformData.UserSummary: the summary rows are a map over the ranked groups. Their permutation relation to the GROUP BY result is stated on `Grouping.RankedGroups`, not restated on the summary rows.
- TransformData.CategorySummary: likewise, the permutation relation is stated on `Grouping.RankedGroups`.
