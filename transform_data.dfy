/**
 * The three aggregating queries over the users, products and carts tables,
 * as functions over sequences of rows: inner join, GROUP BY with SUM, ORDER BY.
 */
module TransformData {
  import opened Wrappers
  import opened CleanData
  import opened Sorting
  import opened Grouping
  import opened Join

  // ===========================================================================
  // User summary: users JOIN carts ON user_id, GROUP BY the user's columns,
  // SUM(quantity * price) AS total_spent, SUM(quantity) AS total_items,
  // ORDER BY total_spent DESC.
  // ===========================================================================

  /** The GROUP BY columns `u.user_id, u.first_name, u.age, u.city`. */
  datatype UserKey = UserKey(userId: Option<int>, firstName: string, age: int, city: string)

  datatype UserSummaryRow = UserSummaryRow(
    userId: Option<int>,
    firstName: string,
    totalSpent: real,
    totalItems: int,
    age: int,
    city: string)

  /** The join condition `u.user_id = c.user_id`. */
  predicate UserJoins(u: UserRow, c: CartRow) {
    KeyMatch(u.userId, c.userId)
  }

  function UserKeyOf(u: UserRow): UserKey {
    UserKey(u.userId, u.firstName, u.age, u.city)
  }

  function SummaryKey(r: UserSummaryRow): UserKey {
    UserKey(r.userId, r.firstName, r.age, r.city)
  }

  function ToUserSummary(g: Group<UserKey>): UserSummaryRow {
    UserSummaryRow(g.key.userId, g.key.firstName, g.total, g.items, g.key.age, g.key.city)
  }

  function UserFacts(users: seq<UserRow>, carts: seq<CartRow>): seq<Fact<UserKey>> {
    JoinFacts(users, carts, UserJoins, UserKeyOf)
  }

  function UserSummary(users: seq<UserRow>, carts: seq<CartRow>): (r: seq<UserSummaryRow>)
    ensures forall i, j :: 0 <= i < j < |r| ==> r[i].totalSpent >= r[j].totalSpent
    ensures forall i, j :: 0 <= i < j < |r| ==> SummaryKey(r[i]) != SummaryKey(r[j])
  {
    var gs := RankedGroups(UserFacts(users, carts));
    var r := seq(|gs|, i requires 0 <= i < |gs| => ToUserSummary(gs[i]));
    assert forall i :: 0 <= i < |r| ==> SummaryKey(r[i]) == gs[i].key && r[i].totalSpent == gs[i].total;
    r
  }

  /** Some user with the GROUP BY columns `k` has a cart row. */
  ghost predicate BoughtSomething(users: seq<UserRow>, carts: seq<CartRow>, k: UserKey) {
    exists iu, ic :: 0 <= iu < |users| && 0 <= ic < |carts| && UserJoins(users[iu], carts[ic]) && UserKeyOf(users[iu]) == k
  }

  /**
   * The user summary has one row per group of user columns that joins at
   * least one cart row: every row's columns come from a user with a cart row,
   * and every user with a cart row has a row with its columns.
   */
  lemma UserSummaryKeys(users: seq<UserRow>, carts: seq<CartRow>)
    ensures forall i :: 0 <= i < |UserSummary(users, carts)| ==>
      BoughtSomething(users, carts, SummaryKey(UserSummary(users, carts)[i]))
    ensures forall iu, ic :: 0 <= iu < |users| && 0 <= ic < |carts| && UserJoins(users[iu], carts[ic]) ==>
      exists i :: 0 <= i < |UserSummary(users, carts)| && SummaryKey(UserSummary(users, carts)[i]) == UserKeyOf(users[iu])
  {
    var facts := UserFacts(users, carts);
    var gs := RankedGroups(facts);
    var r := UserSummary(users, carts);
    forall i | 0 <= i < |r| ensures BoughtSomething(users, carts, SummaryKey(r[i])) {
      var k := gs[i].key;
      assert SummaryKey(r[i]) == k;
      assert HasKey(gs, k);
      JoinOccurs(users, carts, UserJoins, UserKeyOf, k);
    }
    forall iu, ic | 0 <= iu < |users| && 0 <= ic < |carts| && UserJoins(users[iu], carts[ic])
      ensures exists i :: 0 <= i < |r| && SummaryKey(r[i]) == UserKeyOf(users[iu])
    {
      var k := UserKeyOf(users[iu]);
      JoinOccurs(users, carts, UserJoins, UserKeyOf, k);
      assert HasKey(gs, k);
      var i :| 0 <= i < |gs| && gs[i].key == k;
      assert SummaryKey(r[i]) == k;
    }
  }

  /** Each row's sums run over exactly the pairs of a user with its columns and a cart row of that user. */
  lemma UserSummarySums(users: seq<UserRow>, carts: seq<CartRow>)
    ensures forall i :: 0 <= i < |UserSummary(users, carts)| ==>
      UserSummary(users, carts)[i].totalSpent == JoinedTotal(users, carts, UserJoins, UserKeyOf, SummaryKey(UserSummary(users, carts)[i]))
      && UserSummary(users, carts)[i].totalItems == JoinedItems(users, carts, UserJoins, UserKeyOf, SummaryKey(UserSummary(users, carts)[i]))
  {
    var facts := UserFacts(users, carts);
    var gs := RankedGroups(facts);
    var r := UserSummary(users, carts);
    forall i | 0 <= i < |r|
      ensures r[i].totalSpent == JoinedTotal(users, carts, UserJoins, UserKeyOf, SummaryKey(r[i]))
      ensures r[i].totalItems == JoinedItems(users, carts, UserJoins, UserKeyOf, SummaryKey(r[i]))
    {
      assert SummaryKey(r[i]) == gs[i].key;
      JoinSums(users, carts, UserJoins, UserKeyOf, gs[i].key);
    }
  }

  /** Two ids that both join the same non-NULL id are equal and non-NULL. */
  lemma SameKey(a: Option<int>, b: Option<int>, c: Option<int>)
    ensures KeyMatch(a, c) && KeyMatch(b, c) ==> KeyMatch(a, b)
  {
  }

  /** No two users share a (non-NULL) user id. */
  ghost predicate UniqueUserIds(users: seq<UserRow>) {
    forall i, j :: 0 <= i < |users| && 0 <= j < |users| && KeyMatch(users[i].userId, users[j].userId) ==> i == j
  }

  /** SUM(quantity * price) over the cart rows of user id `uid`. */
  function SpentBy(carts: seq<CartRow>, uid: Option<int>): real {
    if carts == [] then 0.0
    else (if KeyMatch(uid, carts[0].userId) then RowValue(carts[0]) else 0.0) + SpentBy(carts[1..], uid)
  }

  /** SUM(quantity) over the cart rows of user id `uid`. */
  function ItemsBoughtBy(carts: seq<CartRow>, uid: Option<int>): int {
    if carts == [] then 0
    else (if KeyMatch(uid, carts[0].userId) then carts[0].quantity else 0) + ItemsBoughtBy(carts[1..], uid)
  }

  lemma {:induction false} JoinedTotalsOfUser(users: seq<UserRow>, carts: seq<CartRow>, n: nat)
    requires UniqueUserIds(users) && n < |users|
    ensures JoinedTotal(users, carts, UserJoins, UserKeyOf, UserKeyOf(users[n])) == SpentBy(carts, users[n].userId)
    ensures JoinedItems(users, carts, UserJoins, UserKeyOf, UserKeyOf(users[n])) == ItemsBoughtBy(carts, users[n].userId)
  {
    if carts != [] {
      var c := carts[0];
      forall i | 0 <= i < |users| && i != n
        ensures !(UserJoins(users[i], c) && UserKeyOf(users[i]) == UserKeyOf(users[n]))
      {
        SameKey(users[i].userId, users[n].userId, c.userId);
      }
      PairsSingle(users, n, c, UserJoins, UserKeyOf, UserKeyOf(users[n]));
      JoinedTotalsOfUser(users, carts[1..], n);
    }
  }

  /**
   * When user ids are unique, a user with at least one cart row has a summary
   * row with its columns, whose totals are the sums over that user's cart rows.
   */
  lemma UserSummaryOfUser(users: seq<UserRow>, carts: seq<CartRow>, n: nat, ic: nat)
    requires UniqueUserIds(users) && n < |users|
    requires ic < |carts| && KeyMatch(users[n].userId, carts[ic].userId)
    ensures exists i :: (0 <= i < |UserSummary(users, carts)|
      && UserSummary(users, carts)[i] == UserSummaryRow(
           users[n].userId, users[n].firstName,
           SpentBy(carts, users[n].userId), ItemsBoughtBy(carts, users[n].userId),
           users[n].age, users[n].city))
  {
    var r := UserSummary(users, carts);
    UserSummaryKeys(users, carts);
    UserSummarySums(users, carts);
    assert UserJoins(users[n], carts[ic]);
    var i :| 0 <= i < |r| && SummaryKey(r[i]) == UserKeyOf(users[n]);
    JoinedTotalsOfUser(users, carts, n);
    assert r[i].totalSpent == SpentBy(carts, users[n].userId);
  }

  /** Inner join: a user none of whose ids appear in the carts table has no summary row. */
  lemma UserWithoutCartRowsAbsent(users: seq<UserRow>, carts: seq<CartRow>, u: UserRow)
    requires forall ic :: 0 <= ic < |carts| ==> !KeyMatch(u.userId, carts[ic].userId)
    ensures forall i :: 0 <= i < |UserSummary(users, carts)| ==> UserSummary(users, carts)[i].userId != u.userId
  {
    var r := UserSummary(users, carts);
    UserSummaryKeys(users, carts);
    forall i | 0 <= i < |r| ensures r[i].userId != u.userId {
      assert BoughtSomething(users, carts, SummaryKey(r[i]));
      var iu, ic :| 0 <= iu < |users| && 0 <= ic < |carts| && UserJoins(users[iu], carts[ic]) && UserKeyOf(users[iu]) == SummaryKey(r[i]);
      assert r[i].userId == users[iu].userId;
      assert !KeyMatch(u.userId, carts[ic].userId);
    }
  }

  /** Adding a user without cart rows, anywhere in the users table, leaves the user summary as it was. */
  lemma UserWithoutCartRowsIgnored(a: seq<UserRow>, u: UserRow, b: seq<UserRow>, carts: seq<CartRow>)
    requires forall ic :: 0 <= ic < |carts| ==> !KeyMatch(u.userId, carts[ic].userId)
    ensures UserSummary(a + [u] + b, carts) == UserSummary(a + b, carts)
  {
    UnjoinedRowIgnored(a, u, b, carts, UserJoins, UserKeyOf);
  }

  // ===========================================================================
  // Category summary: products JOIN carts ON product_id, GROUP BY category,
  // SUM(quantity * price) AS total_sales, SUM(quantity) AS total_items_sold,
  // ORDER BY total_sales DESC.
  // ===========================================================================

  datatype CategorySummaryRow = CategorySummaryRow(category: string, totalSales: real, totalItemsSold: int)

  /** The join condition `p.product_id = c.product_id`. */
  predicate ProductJoins(p: ProductRow, c: CartRow) {
    KeyMatch(p.productId, c.productId)
  }

  function CategoryOf(p: ProductRow): string { p.category }

  function ToCategorySummary(g: Group<string>): CategorySummaryRow {
    CategorySummaryRow(g.key, g.total, g.items)
  }

  function CategoryFacts(products: seq<ProductRow>, carts: seq<CartRow>): seq<Fact<string>> {
    JoinFacts(products, carts, ProductJoins, CategoryOf)
  }

  function CategorySummary(products: seq<ProductRow>, carts: seq<CartRow>): (r: seq<CategorySummaryRow>)
    ensures forall i, j :: 0 <= i < j < |r| ==> r[i].totalSales >= r[j].totalSales
    ensures forall i, j :: 0 <= i < j < |r| ==> r[i].category != r[j].category
  {
    var gs := RankedGroups(CategoryFacts(products, carts));
    var r := seq(|gs|, i requires 0 <= i < |gs| => ToCategorySummary(gs[i]));
    assert forall i :: 0 <= i < |r| ==> r[i].category == gs[i].key && r[i].totalSales == gs[i].total;
    r
  }

  /** Some product of category `cat` is referred to by a cart row. */
  ghost predicate CategorySold(products: seq<ProductRow>, carts: seq<CartRow>, cat: string) {
    exists ip, ic :: 0 <= ip < |products| && 0 <= ic < |carts| && ProductJoins(products[ip], carts[ic]) && products[ip].category == cat
  }

  /**
   * One row per category with at least one joined cart row: every row's
   * category is that of a product some cart row refers to, and conversely.
   */
  lemma CategorySummaryKeys(products: seq<ProductRow>, carts: seq<CartRow>)
    ensures forall i :: 0 <= i < |CategorySummary(products, carts)| ==>
      CategorySold(products, carts, CategorySummary(products, carts)[i].category)
    ensures forall ip, ic :: 0 <= ip < |products| && 0 <= ic < |carts| && ProductJoins(products[ip], carts[ic]) ==>
      exists i :: 0 <= i < |CategorySummary(products, carts)| && CategorySummary(products, carts)[i].category == products[ip].category
  {
    var facts := CategoryFacts(products, carts);
    var gs := RankedGroups(facts);
    var r := CategorySummary(products, carts);
    forall i | 0 <= i < |r| ensures CategorySold(products, carts, r[i].category) {
      var cat := gs[i].key;
      assert r[i].category == cat;
      assert HasKey(gs, cat);
      JoinOccurs(products, carts, ProductJoins, CategoryOf, cat);
    }
    forall ip, ic | 0 <= ip < |products| && 0 <= ic < |carts| && ProductJoins(products[ip], carts[ic])
      ensures exists i :: 0 <= i < |r| && r[i].category == products[ip].category
    {
      var cat := products[ip].category;
      JoinOccurs(products, carts, ProductJoins, CategoryOf, cat);
      assert HasKey(gs, cat);
      var i :| 0 <= i < |gs| && gs[i].key == cat;
      assert r[i].category == cat;
    }
  }

  /** Each category's sums run over exactly the pairs of a product of that category and a cart row referring to it. */
  lemma CategorySummarySums(products: seq<ProductRow>, carts: seq<CartRow>)
    ensures forall i :: 0 <= i < |CategorySummary(products, carts)| ==>
      CategorySummary(products, carts)[i].totalSales == JoinedTotal(products, carts, ProductJoins, CategoryOf, CategorySummary(products, carts)[i].category)
      && CategorySummary(products, carts)[i].totalItemsSold == JoinedItems(products, carts, ProductJoins, CategoryOf, CategorySummary(products, carts)[i].category)
  {
    var facts := CategoryFacts(products, carts);
    var gs := RankedGroups(facts);
    var r := CategorySummary(products, carts);
    forall i | 0 <= i < |r|
      ensures r[i].totalSales == JoinedTotal(products, carts, ProductJoins, CategoryOf, r[i].category)
      ensures r[i].totalItemsSold == JoinedItems(products, carts, ProductJoins, CategoryOf, r[i].category)
    {
      assert r[i].category == gs[i].key;
      JoinSums(products, carts, ProductJoins, CategoryOf, gs[i].key);
    }
  }

  ghost predicate UniqueProductIds(products: seq<ProductRow>) {
    forall i, j :: 0 <= i < |products| && 0 <= j < |products| && KeyMatch(products[i].productId, products[j].productId) ==> i == j
  }

  /** Cart row `c` refers to a product of category `cat`. */
  ghost predicate SoldIn(products: seq<ProductRow>, c: CartRow, cat: string) {
    exists ip :: 0 <= ip < |products| && ProductJoins(products[ip], c) && products[ip].category == cat
  }

  /** SUM(quantity * price) over the cart rows referring to a product of category `cat`. */
  ghost function SalesIn(products: seq<ProductRow>, carts: seq<CartRow>, cat: string): real {
    if carts == [] then 0.0
    else (if SoldIn(products, carts[0], cat) then RowValue(carts[0]) else 0.0) + SalesIn(products, carts[1..], cat)
  }

  /** SUM(quantity) over the cart rows referring to a product of category `cat`. */
  ghost function ItemsSoldIn(products: seq<ProductRow>, carts: seq<CartRow>, cat: string): int {
    if carts == [] then 0
    else (if SoldIn(products, carts[0], cat) then carts[0].quantity else 0) + ItemsSoldIn(products, carts[1..], cat)
  }

  lemma {:induction false} JoinedTotalsOfCategory(products: seq<ProductRow>, carts: seq<CartRow>, cat: string)
    requires UniqueProductIds(products)
    ensures JoinedTotal(products, carts, ProductJoins, CategoryOf, cat) == SalesIn(products, carts, cat)
    ensures JoinedItems(products, carts, ProductJoins, CategoryOf, cat) == ItemsSoldIn(products, carts, cat)
  {
    if carts != [] {
      var c := carts[0];
      if SoldIn(products, c, cat) {
        var ip :| 0 <= ip < |products| && ProductJoins(products[ip], c) && products[ip].category == cat;
        forall i | 0 <= i < |products| && i != ip
          ensures !(ProductJoins(products[i], c) && CategoryOf(products[i]) == cat)
        {
          SameKey(products[i].productId, products[ip].productId, c.productId);
        }
        PairsSingle(products, ip, c, ProductJoins, CategoryOf, cat);
      } else {
        PairsZero(products, c, ProductJoins, CategoryOf, cat);
      }
      JoinedTotalsOfCategory(products, carts[1..], cat);
    }
  }

  /**
   * When product ids are unique, a category's totals are the sums over the
   * cart rows whose product id is that of a product of the category.
   */
  lemma CategorySummaryTotals(products: seq<ProductRow>, carts: seq<CartRow>)
    requires UniqueProductIds(products)
    ensures forall i :: 0 <= i < |CategorySummary(products, carts)| ==>
      CategorySummary(products, carts)[i].totalSales == SalesIn(products, carts, CategorySummary(products, carts)[i].category)
      && CategorySummary(products, carts)[i].totalItemsSold == ItemsSoldIn(products, carts, CategorySummary(products, carts)[i].category)
  {
    var r := CategorySummary(products, carts);
    CategorySummarySums(products, carts);
    forall i | 0 <= i < |r|
      ensures r[i].totalSales == SalesIn(products, carts, r[i].category)
      ensures r[i].totalItemsSold == ItemsSoldIn(products, carts, r[i].category)
    {
      JoinedTotalsOfCategory(products, carts, r[i].category);
    }
  }

  /**
   * A cart row whose product id matches no product (for example one the price
   * filter removed) contributes nothing: the category summary is as without it.
   */
  lemma UnmatchedCartRowIgnoredByCategories(products: seq<ProductRow>, a: seq<CartRow>, c: CartRow, b: seq<CartRow>)
    requires forall ip :: 0 <= ip < |products| ==> !KeyMatch(products[ip].productId, c.productId)
    ensures CategorySummary(products, a + [c] + b) == CategorySummary(products, a + b)
  {
    UnjoinedCartRowIgnored(products, a, c, b, ProductJoins, CategoryOf);
  }

  // ===========================================================================
  // Cart details: carts JOIN users ON user_id JOIN products ON product_id,
  // ORDER BY cart_id, product_id.
  // ===========================================================================

  datatype CartDetailRow = CartDetailRow(
    cartId: Option<int>,
    userId: Option<int>,
    productId: Option<int>,
    quantity: int,
    price: real,
    totalCartValue: real,
    firstName: string,
    lastName: string,
    productName: string,
    category: string,
    brand: string)

  /** The selected columns of one joined triple. */
  function Detail(c: CartRow, u: UserRow, p: ProductRow): CartDetailRow {
    CartDetailRow(c.cartId, c.userId, c.productId, c.quantity, c.price, c.totalCartValue,
                  u.firstName, u.lastName, p.name, p.category, p.brand)
  }

  /** The triples of cart row `c`, user `u` and each product joining `c`. */
  function DetailsWithUser(c: CartRow, u: UserRow, products: seq<ProductRow>): seq<CartDetailRow> {
    if products == [] then []
    else (if ProductJoins(products[0], c) then [Detail(c, u, products[0])] else []) + DetailsWithUser(c, u, products[1..])
  }

  /** The triples of cart row `c`: each user joining it, with each product joining it. */
  function DetailsFor(c: CartRow, users: seq<UserRow>, products: seq<ProductRow>): seq<CartDetailRow> {
    if users == [] then []
    else (if UserJoins(users[0], c) then DetailsWithUser(c, users[0], products) else []) + DetailsFor(c, users[1..], products)
  }

  /** The three-way join, before ordering. */
  function JoinDetails(carts: seq<CartRow>, users: seq<UserRow>, products: seq<ProductRow>): seq<CartDetailRow> {
    if carts == [] then []
    else DetailsFor(carts[0], users, products) + JoinDetails(carts[1..], users, products)
  }

  /** Ascending order of a nullable integer column; NULL sorts first. */
  predicate OptLe(a: Option<int>, b: Option<int>) {
    a.None? || (b.Some? && a.value <= b.value)
  }

  /** ORDER BY cart_id, product_id. */
  predicate DetailLe(x: CartDetailRow, y: CartDetailRow) {
    if x.cartId == y.cartId then OptLe(x.productId, y.productId) else OptLe(x.cartId, y.cartId)
  }

  lemma DetailLePreorder()
    ensures TotalPreorder(DetailLe)
  {
  }

  function CartDetails(carts: seq<CartRow>, users: seq<UserRow>, products: seq<ProductRow>): (r: seq<CartDetailRow>)
    ensures multiset(r) == multiset(JoinDetails(carts, users, products))
    ensures forall i, j :: 0 <= i < j < |r| ==>
      OptLe(r[i].cartId, r[j].cartId) && (r[i].cartId == r[j].cartId ==> OptLe(r[i].productId, r[j].productId))
  {
    DetailLePreorder();
    var r := SortBy(JoinDetails(carts, users, products), DetailLe);
    assert forall i, j :: 0 <= i < j < |r| ==> DetailLe(r[i], r[j]);
    r
  }

  // --- membership --------------------------------------------------------------

  /** `d` is built from cart row `c`, user `u` and a product matching `c`. */
  ghost predicate WithSomeProduct(c: CartRow, u: UserRow, products: seq<ProductRow>, d: CartDetailRow) {
    exists p :: p in products && ProductJoins(p, c) && d == Detail(c, u, p)
  }

  /** `d` is built from cart row `c`, a user matching `c` and a product matching `c`. */
  ghost predicate WithSomePair(c: CartRow, users: seq<UserRow>, products: seq<ProductRow>, d: CartDetailRow) {
    exists u, p :: u in users && p in products && UserJoins(u, c) && ProductJoins(p, c) && d == Detail(c, u, p)
  }

  /** `d` is built from a cart row, a user matching it and a product matching it. */
  ghost predicate WithSomeTriple(carts: seq<CartRow>, users: seq<UserRow>, products: seq<ProductRow>, d: CartDetailRow) {
    exists c, u, p :: c in carts && u in users && p in products && UserJoins(u, c) && ProductJoins(p, c) && d == Detail(c, u, p)
  }

  lemma {:induction false} DetailsWithUserMembers(c: CartRow, u: UserRow, products: seq<ProductRow>)
    ensures forall d :: d in DetailsWithUser(c, u, products) <==> WithSomeProduct(c, u, products, d)
  {
    if products != [] {
      DetailsWithUserMembers(c, u, products[1..]);
      assert forall p :: p in products <==> p == products[0] || p in products[1..];
    }
  }

  lemma {:induction false} DetailsForMembers(c: CartRow, users: seq<UserRow>, products: seq<ProductRow>)
    ensures forall d :: d in DetailsFor(c, users, products) <==> WithSomePair(c, users, products, d)
  {
    if users != [] {
      DetailsForMembers(c, users[1..], products);
      DetailsWithUserMembers(c, users[0], products);
      assert forall u :: u in users <==> u == users[0] || u in users[1..];
    }
  }

  lemma {:induction false} JoinDetailsMembers(carts: seq<CartRow>, users: seq<UserRow>, products: seq<ProductRow>)
    ensures forall d :: d in JoinDetails(carts, users, products) <==> WithSomeTriple(carts, users, products, d)
  {
    if carts != [] {
      JoinDetailsMembers(carts[1..], users, products);
      DetailsForMembers(carts[0], users, products);
      assert forall c :: c in carts <==> c == carts[0] || c in carts[1..];
    }
  }

  /**
   * A row is in the cart details iff it is the selected columns of a cart row,
   * a user with the same user id and a product with the same product id.
   */
  lemma CartDetailsMembers(carts: seq<CartRow>, users: seq<UserRow>, products: seq<ProductRow>)
    ensures forall d :: (d in CartDetails(carts, users, products)
      <==> exists c, u, p :: c in carts && u in users && p in products
             && KeyMatch(u.userId, c.userId) && KeyMatch(p.productId, c.productId)
             && d == Detail(c, u, p))
  {
    JoinDetailsMembers(carts, users, products);
    PermutationMembers(CartDetails(carts, users, products), JoinDetails(carts, users, products));
    forall d ensures d in CartDetails(carts, users, products) <==> WithSomeTriple(carts, users, products, d) {
    }
  }

  // --- how many rows a cart row yields ----------------------------------------

  lemma {:induction false} JoinDetailsAppend(x: seq<CartRow>, y: seq<CartRow>, users: seq<UserRow>, products: seq<ProductRow>)
    ensures JoinDetails(x + y, users, products) == JoinDetails(x, users, products) + JoinDetails(y, users, products)
  {
    if x != [] {
      assert (x + y)[0] == x[0] && (x + y)[1..] == x[1..] + y;
      JoinDetailsAppend(x[1..], y, users, products);
    } else {
      assert x + y == y;
    }
  }

  lemma {:induction false} NoProductNoDetails(c: CartRow, u: UserRow, products: seq<ProductRow>)
    requires forall ip :: 0 <= ip < |products| ==> !KeyMatch(products[ip].productId, c.productId)
    ensures DetailsWithUser(c, u, products) == []
  {
    if products != [] {
      NoProductNoDetails(c, u, products[1..]);
    }
  }

  /**
   * A cart row that matches no user, or no product, yields no detail row:
   * the inner joins drop it.
   */
  lemma {:induction false} UnmatchedCartRowNoDetails(c: CartRow, users: seq<UserRow>, products: seq<ProductRow>)
    requires (forall iu :: 0 <= iu < |users| ==> !KeyMatch(users[iu].userId, c.userId))
          || (forall ip :: 0 <= ip < |products| ==> !KeyMatch(products[ip].productId, c.productId))
    ensures DetailsFor(c, users, products) == []
  {
    if users != [] {
      if UserJoins(users[0], c) {
        NoProductNoDetails(c, users[0], products);
      }
      UnmatchedCartRowNoDetails(c, users[1..], products);
    }
  }

  /** Removing a cart row that matches no user or no product leaves the cart details as they were. */
  lemma UnmatchedCartRowDropped(a: seq<CartRow>, c: CartRow, b: seq<CartRow>, users: seq<UserRow>, products: seq<ProductRow>)
    requires (forall iu :: 0 <= iu < |users| ==> !KeyMatch(users[iu].userId, c.userId))
          || (forall ip :: 0 <= ip < |products| ==> !KeyMatch(products[ip].productId, c.productId))
    ensures CartDetails(a + [c] + b, users, products) == CartDetails(a + b, users, products)
  {
    JoinDetailsAppend(a + [c], b, users, products);
    JoinDetailsAppend(a, [c], users, products);
    JoinDetailsAppend(a, b, users, products);
    UnmatchedCartRowNoDetails(c, users, products);
    assert JoinDetails([c], users, products) == DetailsFor(c, users, products) + JoinDetails([c][1..], users, products);
    assert [c][1..] == [];
    assert JoinDetails(a + [c] + b, users, products) == JoinDetails(a + b, users, products);
  }

  lemma UniqueProductIdsTail(products: seq<ProductRow>)
    requires products != [] && UniqueProductIds(products)
    ensures UniqueProductIds(products[1..])
  {
    var t := products[1..];
    forall i, j | 0 <= i < |t| && 0 <= j < |t| && KeyMatch(t[i].productId, t[j].productId)
      ensures i == j
    {
      assert t[i] == products[i + 1] && t[j] == products[j + 1];
    }
  }

  lemma UniqueUserIdsTail(users: seq<UserRow>)
    requires users != [] && UniqueUserIds(users)
    ensures UniqueUserIds(users[1..])
  {
    var t := users[1..];
    forall i, j | 0 <= i < |t| && 0 <= j < |t| && KeyMatch(t[i].userId, t[j].userId)
      ensures i == j
    {
      assert t[i] == users[i + 1] && t[j] == users[j + 1];
    }
  }

  lemma {:induction false} DetailsWithUserAtMostOne(c: CartRow, u: UserRow, products: seq<ProductRow>)
    requires UniqueProductIds(products)
    ensures |DetailsWithUser(c, u, products)| <= 1
  {
    if products != [] {
      var t := products[1..];
      if ProductJoins(products[0], c) {
        forall ip | 0 <= ip < |t| ensures !KeyMatch(t[ip].productId, c.productId) {
          assert t[ip] == products[ip + 1];
          SameKey(products[ip + 1].productId, products[0].productId, c.productId);
        }
        NoProductNoDetails(c, u, t);
      } else {
        UniqueProductIdsTail(products);
        DetailsWithUserAtMostOne(c, u, t);
      }
    }
  }

  lemma {:induction false} DetailsForAtMostOne(c: CartRow, users: seq<UserRow>, products: seq<ProductRow>)
    requires UniqueUserIds(users) && UniqueProductIds(products)
    ensures |DetailsFor(c, users, products)| <= 1
  {
    if users != [] {
      var t := users[1..];
      if UserJoins(users[0], c) {
        forall iu | 0 <= iu < |t| ensures !KeyMatch(t[iu].userId, c.userId) {
          assert t[iu] == users[iu + 1];
          SameKey(users[iu + 1].userId, users[0].userId, c.userId);
        }
        UnmatchedCartRowNoDetails(c, t, products);
        DetailsWithUserAtMostOne(c, users[0], products);
      } else {
        UniqueUserIdsTail(users);
        DetailsForAtMostOne(c, t, products);
      }
    }
  }

  lemma {:induction false} JoinDetailsAtMostOnePerCartRow(carts: seq<CartRow>, users: seq<UserRow>, products: seq<ProductRow>)
    requires UniqueUserIds(users) && UniqueProductIds(products)
    ensures |JoinDetails(carts, users, products)| <= |carts|
  {
    if carts != [] {
      DetailsForAtMostOne(carts[0], users, products);
      JoinDetailsAtMostOnePerCartRow(carts[1..], users, products);
    }
  }

  /**
   * With unique user and product ids, the cart details have at most as many
   * rows as the carts table (each cart row yields at most one, by `DetailsForAtMostOne`).
   */
  lemma CartDetailsAtMostOnePerCartRow(carts: seq<CartRow>, users: seq<UserRow>, products: seq<ProductRow>)
    requires UniqueUserIds(users) && UniqueProductIds(products)
    ensures |CartDetails(carts, users, products)| <= |carts|
  {
    JoinDetailsAtMostOnePerCartRow(carts, users, products);
    assert |multiset(CartDetails(carts, users, products))| == |multiset(JoinDetails(carts, users, products))|;
  }
}
