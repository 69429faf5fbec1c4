/**
 * The record normaliser and cart flattener: raw nested user, product and cart
 * records (decoded JSON objects, where any key may be missing) become flat rows
 * of the users, products and carts tables.
 *
 * Each cleaning operation is a method that loops over the input and appends one
 * row at a time, as the Python `clean_*_data` functions do; its postcondition ties the built table to
 * a specification function, and the lemmas below state what those functions mean.
 */
module CleanData {
  import opened Wrappers

  // ---------------------------------------------------------------------------
  // Raw records. A key missing from the JSON object is `None`.
  // ---------------------------------------------------------------------------

  datatype RawAddress = RawAddress(
    address: Option<string>,
    suite: Option<string>,
    city: Option<string>,
    postalCode: Option<string>)

  datatype RawUser = RawUser(
    id: Option<int>,
    firstName: Option<string>,
    lastName: Option<string>,
    gender: Option<string>,
    age: Option<int>,
    address: Option<RawAddress>)

  datatype RawProduct = RawProduct(
    id: Option<int>,
    title: Option<string>,
    category: Option<string>,
    brand: Option<string>,
    price: Option<real>)

  /** One line item embedded in a cart. */
  datatype RawItem = RawItem(id: Option<int>, quantity: Option<int>, price: Option<real>)

  datatype RawCart = RawCart(id: Option<int>, userId: Option<int>, products: Option<seq<RawItem>>)

  /** The top-level JSON documents: `{"users": [...]}` and so on. */
  datatype UsersPayload = UsersPayload(users: Option<seq<RawUser>>)
  datatype ProductsPayload = ProductsPayload(products: Option<seq<RawProduct>>)
  datatype CartsPayload = CartsPayload(carts: Option<seq<RawCart>>)

  // ---------------------------------------------------------------------------
  // Flat rows, with the columns of the users, products and carts tables.
  // An identifier that was missing stays absent (it becomes NULL downstream).
  // ---------------------------------------------------------------------------

  datatype UserRow = UserRow(
    userId: Option<int>,
    firstName: string,
    lastName: string,
    gender: string,
    age: int,
    street: string,
    city: string,
    postalCode: string)

  datatype ProductRow = ProductRow(
    productId: Option<int>,
    name: string,
    category: string,
    brand: string,
    price: real)

  datatype CartRow = CartRow(
    cartId: Option<int>,
    userId: Option<int>,
    productId: Option<int>,
    quantity: int,
    price: real,
    totalCartValue: real)

  /** What `user.get('address', {})` yields when the user has no address. */
  const EmptyAddress := RawAddress(None, None, None, None)

  /** Products priced at or below this are dropped. */
  const PriceThreshold: real := 50.0

  function UsersOf(data: UsersPayload): seq<RawUser> { data.users.GetOr([]) }
  function ProductsOf(data: ProductsPayload): seq<RawProduct> { data.products.GetOr([]) }
  function CartsOf(data: CartsPayload): seq<RawCart> { data.carts.GetOr([]) }

  // ---------------------------------------------------------------------------
  // Users
  // ---------------------------------------------------------------------------

  /** The flat row for one raw user record. */
  function CleanUser(u: RawUser): UserRow {
    var a := u.address.GetOr(EmptyAddress);
    UserRow(
      u.id,
      u.firstName.GetOr(""),
      u.lastName.GetOr(""),
      u.gender.GetOr(""),
      u.age.GetOr(0),
      a.address.GetOr("") + ", " + a.suite.GetOr(""),
      a.city.GetOr(""),
      a.postalCode.GetOr(""))
  }

  /** One row per input user, in input order; a missing `users` key gives no rows. */
  method CleanUsersData(data: UsersPayload) returns (users: seq<UserRow>)
    ensures |users| == |UsersOf(data)|
    ensures forall i :: 0 <= i < |users| ==> users[i] == CleanUser(UsersOf(data)[i])
    ensures data.users.None? ==> users == []
  {
    var raw := data.users.GetOr([]);
    users := [];
    for i := 0 to |raw|
      invariant |users| == i
      invariant forall k :: 0 <= k < i ==> users[k] == CleanUser(raw[k])
    {
      var user := raw[i];
      var address := user.address.GetOr(EmptyAddress);
      var street := address.address.GetOr("") + ", " + address.suite.GetOr("");
      var city := address.city.GetOr("");
      var postalCode := address.postalCode.GetOr("");
      var cleaned := UserRow(
        user.id,
        user.firstName.GetOr(""),
        user.lastName.GetOr(""),
        user.gender.GetOr(""),
        user.age.GetOr(0),
        street,
        city,
        postalCode);
      users := users + [cleaned];
    }
  }

  /** A missing field is filled with its default, never rejected. */
  lemma MissingUserFieldsDefault(u: RawUser)
    ensures u.id.None? ==> CleanUser(u).userId.None?
    ensures u.firstName.None? ==> CleanUser(u).firstName == ""
    ensures u.lastName.None? ==> CleanUser(u).lastName == ""
    ensures u.gender.None? ==> CleanUser(u).gender == ""
    ensures u.age.None? ==> CleanUser(u).age == 0
    ensures u.address.None? ==> CleanUser(u).street == ", " && CleanUser(u).city == "" && CleanUser(u).postalCode == ""
    ensures var a := u.address.GetOr(EmptyAddress);
            (a.city.None? ==> CleanUser(u).city == "") && (a.postalCode.None? ==> CleanUser(u).postalCode == "")
  {
  }

  /** A field that is present is copied unchanged. */
  lemma PresentUserFieldsCopied(u: RawUser)
    ensures CleanUser(u).userId == u.id
    ensures u.firstName.Some? ==> CleanUser(u).firstName == u.firstName.value
    ensures u.lastName.Some? ==> CleanUser(u).lastName == u.lastName.value
    ensures u.gender.Some? ==> CleanUser(u).gender == u.gender.value
    ensures u.age.Some? ==> CleanUser(u).age == u.age.value
    ensures var a := u.address.GetOr(EmptyAddress);
            (a.city.Some? ==> CleanUser(u).city == a.city.value)
            && (a.postalCode.Some? ==> CleanUser(u).postalCode == a.postalCode.value)
  {
  }

  /**
   * The street is the address line, a comma and a space, and the suite, each
   * defaulting to the empty string; the address line can be read back from it.
   */
  lemma StreetFormat(u: RawUser)
    ensures var a := u.address.GetOr(EmptyAddress);
            var line := a.address.GetOr("");
            var street := CleanUser(u).street;
            |street| == |line| + 2 + |a.suite.GetOr("")|
            && street[..|line|] == line
            && street[|line|..|line| + 2] == ", "
            && street[|line| + 2..] == a.suite.GetOr("")
    ensures u.address.None? || u.address == Some(EmptyAddress) ==> CleanUser(u).street == ", "
  {
  }

  // ---------------------------------------------------------------------------
  // Products
  // ---------------------------------------------------------------------------

  /** The filter: the price, 0 when absent, must exceed the threshold. */
  predicate Kept(p: RawProduct) {
    p.price.GetOr(0.0) > PriceThreshold
  }

  function CleanProduct(p: RawProduct): ProductRow {
    ProductRow(p.id, p.title.GetOr(""), p.category.GetOr(""), p.brand.GetOr(""), p.price.GetOr(0.0))
  }

  /** A product row renames `id` and `title`, copies the rest, and fills missing strings with `""`. */
  lemma CleanProductFields(p: RawProduct)
    ensures CleanProduct(p).productId == p.id
    ensures CleanProduct(p).name == p.title.GetOr("")
    ensures CleanProduct(p).category == p.category.GetOr("")
    ensures CleanProduct(p).brand == p.brand.GetOr("")
    ensures CleanProduct(p).price == p.price.GetOr(0.0)
    ensures p.title.None? ==> CleanProduct(p).name == ""
    ensures p.category.None? ==> CleanProduct(p).category == ""
    ensures p.brand.None? ==> CleanProduct(p).brand == ""
  {
  }

  /** The products table: the kept products, cleaned, in input order. */
  function KeptProducts(ps: seq<RawProduct>): seq<ProductRow> {
    if ps == [] then []
    else
      var last := ps[|ps| - 1];
      KeptProducts(ps[..|ps| - 1]) + (if Kept(last) then [CleanProduct(last)] else [])
  }

  method CleanProductsData(data: ProductsPayload) returns (products: seq<ProductRow>)
    ensures products == KeptProducts(ProductsOf(data))
  {
    var raw := data.products.GetOr([]);
    products := [];
    for i := 0 to |raw|
      invariant products == KeptProducts(raw[..i])
    {
      var product := raw[i];
      assert raw[..i + 1][..i] == raw[..i];
      if product.price.GetOr(0.0) > PriceThreshold {
        var cleaned := ProductRow(
          product.id,
          product.title.GetOr(""),
          product.category.GetOr(""),
          product.brand.GetOr(""),
          product.price.GetOr(0.0));
        products := products + [cleaned];
      }
    }
    assert raw[..|raw|] == raw;
  }

  /** Filtering distributes over concatenation: kept products stay in input order. */
  lemma {:induction false} KeptProductsAppend(a: seq<RawProduct>, b: seq<RawProduct>)
    ensures KeptProducts(a + b) == KeptProducts(a) + KeptProducts(b)
    decreases |b|
  {
    if b == [] {
      assert a + b == a;
    } else {
      var b' := b[..|b| - 1];
      assert (a + b)[..|a + b| - 1] == a + b';
      assert (a + b)[|a + b| - 1] == b[|b| - 1];
      KeptProductsAppend(a, b');
    }
  }

  /** A single product is kept exactly when its price (0 if absent) exceeds 50; a kept one carries its own price. */
  lemma KeptProductsSingle(p: RawProduct)
    ensures KeptProducts([p]) == if Kept(p) then [CleanProduct(p)] else []
    ensures p.price.None? ==> KeptProducts([p]) == []
    ensures Kept(p) ==> p.price.Some? && CleanProduct(p).price == p.price.value > PriceThreshold
  {
    assert [p][..0] == [];
  }

  /** A row is in the products table iff it is the cleaned form of a kept input product. */
  lemma {:induction false} KeptProductsMembership(ps: seq<RawProduct>)
    ensures forall r :: r in KeptProducts(ps) <==> exists i :: 0 <= i < |ps| && Kept(ps[i]) && r == CleanProduct(ps[i])
    ensures forall r :: r in KeptProducts(ps) ==> r.price > PriceThreshold
  {
    if ps != [] {
      var init := ps[..|ps| - 1];
      KeptProductsMembership(init);
      forall r
        ensures r in KeptProducts(ps) <==> exists i :: 0 <= i < |ps| && Kept(ps[i]) && r == CleanProduct(ps[i])
      {
        if r in KeptProducts(init) {
          var i :| 0 <= i < |init| && Kept(init[i]) && r == CleanProduct(init[i]);
          assert ps[i] == init[i];
        }
        if exists i :: 0 <= i < |ps| && Kept(ps[i]) && r == CleanProduct(ps[i]) {
          var i :| 0 <= i < |ps| && Kept(ps[i]) && r == CleanProduct(ps[i]);
          if i < |init| {
            assert init[i] == ps[i];
          }
        }
      }
    }
  }

  // ---------------------------------------------------------------------------
  // Carts
  // ---------------------------------------------------------------------------

  function ItemsOf(c: RawCart): seq<RawItem> { c.products.GetOr([]) }

  /** `quantity * price` of one line item, a missing quantity or price counting as 0. */
  function ItemValue(item: RawItem): real {
    (item.quantity.GetOr(0) as real) * item.price.GetOr(0.0)
  }

  /** The cart-wide total: the sum of the item values over all line items. */
  function CartTotal(items: seq<RawItem>): real {
    if items == [] then 0.0
    else CartTotal(items[..|items| - 1]) + ItemValue(items[|items| - 1])
  }

  /** `quantity * price` of one carts-table row. */
  function RowValue(r: CartRow): real {
    (r.quantity as real) * r.price
  }

  /** The sum of the row values of a block of carts-table rows. */
  function RowsValue(rows: seq<CartRow>): real {
    if rows == [] then 0.0
    else RowsValue(rows[..|rows| - 1]) + RowValue(rows[|rows| - 1])
  }

  /** The row emitted for one line item of a cart. */
  function ItemRow(cartId: Option<int>, userId: Option<int>, item: RawItem, total: real): CartRow {
    CartRow(cartId, userId, item.id, item.quantity.GetOr(0), item.price.GetOr(0.0), total)
  }

  /** The rows for a run of line items of one cart: one per item, in item order. */
  function ItemRows(cartId: Option<int>, userId: Option<int>, items: seq<RawItem>, total: real): (rows: seq<CartRow>)
    ensures |rows| == |items|
    ensures forall k :: 0 <= k < |items| ==> rows[k] == ItemRow(cartId, userId, items[k], total)
  {
    if items == [] then []
    else ItemRows(cartId, userId, items[..|items| - 1], total) + [ItemRow(cartId, userId, items[|items| - 1], total)]
  }

  /** All rows of one cart: the total is computed over the whole item list, then repeated. */
  function CartRows(c: RawCart): seq<CartRow> {
    ItemRows(c.id, c.userId, ItemsOf(c), CartTotal(ItemsOf(c)))
  }

  /** The carts table: the rows of each cart, in cart order. */
  function FlattenCarts(cs: seq<RawCart>): seq<CartRow> {
    if cs == [] then []
    else FlattenCarts(cs[..|cs| - 1]) + CartRows(cs[|cs| - 1])
  }

  /** The sum over carts of their line-item counts. */
  function ItemCount(cs: seq<RawCart>): nat {
    if cs == [] then 0
    else ItemCount(cs[..|cs| - 1]) + |ItemsOf(cs[|cs| - 1])|
  }

  method CleanCartsData(data: CartsPayload) returns (carts: seq<CartRow>)
    ensures carts == FlattenCarts(CartsOf(data))
  {
    var raw := data.carts.GetOr([]);
    carts := [];
    for i := 0 to |raw|
      invariant carts == FlattenCarts(raw[..i])
    {
      var cart := raw[i];
      var cartId := cart.id;
      var userId := cart.userId;
      var items := cart.products.GetOr([]);
      var totalCartValue := CartTotal(items);
      assert raw[..i + 1][..i] == raw[..i];
      for j := 0 to |items|
        invariant carts == FlattenCarts(raw[..i]) + ItemRows(cartId, userId, items[..j], totalCartValue)
      {
        var item := items[j];
        assert items[..j + 1][..j] == items[..j];
        var cleaned := CartRow(cartId, userId, item.id, item.quantity.GetOr(0), item.price.GetOr(0.0), totalCartValue);
        carts := carts + [cleaned];
      }
      assert items[..|items|] == items;
    }
    assert raw[..|raw|] == raw;
  }

  /** Flattening distributes over concatenation of the cart list. */
  lemma {:induction false} FlattenCartsAppend(a: seq<RawCart>, b: seq<RawCart>)
    ensures FlattenCarts(a + b) == FlattenCarts(a) + FlattenCarts(b)
    decreases |b|
  {
    if b == [] {
      assert a + b == a;
    } else {
      var b', last := b[..|b| - 1], b[|b| - 1];
      assert (a + b)[..|a + b| - 1] == a + b';
      assert (a + b)[|a + b| - 1] == last;
      calc {
        FlattenCarts(a + b);
        FlattenCarts(a + b') + CartRows(last);
        { FlattenCartsAppend(a, b'); }
        (FlattenCarts(a) + FlattenCarts(b')) + CartRows(last);
        FlattenCarts(a) + (FlattenCarts(b') + CartRows(last));
        FlattenCarts(a) + FlattenCarts(b);
      }
    }
  }

  /** So do the line-item counts. */
  lemma {:induction false} ItemCountAppend(a: seq<RawCart>, b: seq<RawCart>)
    ensures ItemCount(a + b) == ItemCount(a) + ItemCount(b)
    decreases |b|
  {
    if b == [] {
      assert a + b == a;
    } else {
      var b' := b[..|b| - 1];
      assert (a + b)[..|a + b| - 1] == a + b';
      assert (a + b)[|a + b| - 1] == b[|b| - 1];
      ItemCountAppend(a, b');
    }
  }

  /** The number of rows is the sum over carts of their line-item counts. */
  lemma {:induction false} FlattenCartsLength(cs: seq<RawCart>)
    ensures |FlattenCarts(cs)| == ItemCount(cs)
  {
    if cs != [] {
      FlattenCartsLength(cs[..|cs| - 1]);
    }
  }

  /**
   * Row `ItemCount(cs[..i]) + k` of the carts table is the row for item `k` of
   * cart `i`: rows come in cart order, within a cart in item order, and carry
   * the cart's id, user id and cart-wide total.
   */
  lemma FlattenCartsAt(cs: seq<RawCart>, i: nat, k: nat)
    requires i < |cs| && k < |ItemsOf(cs[i])|
    ensures ItemCount(cs[..i]) + k < |FlattenCarts(cs)|
    ensures FlattenCarts(cs)[ItemCount(cs[..i]) + k]
         == ItemRow(cs[i].id, cs[i].userId, ItemsOf(cs[i])[k], CartTotal(ItemsOf(cs[i])))
  {
    var pre, post := cs[..i], cs[i + 1..];
    assert cs == pre + [cs[i]] + post;
    FlattenCartsSplit(pre, cs[i], post);
    var before, mine := FlattenCarts(pre), CartRows(cs[i]);
    assert FlattenCarts(cs) == before + mine + FlattenCarts(post);
    FlattenCartsLength(pre);
    assert |before| == ItemCount(pre);
    IndexInMiddle(before, mine, FlattenCarts(post), k);
    assert mine[k] == ItemRow(cs[i].id, cs[i].userId, ItemsOf(cs[i])[k], CartTotal(ItemsOf(cs[i])));
  }

  /** The rows of a cart list split around one cart. */
  lemma FlattenCartsSplit(pre: seq<RawCart>, c: RawCart, post: seq<RawCart>)
    ensures FlattenCarts(pre + [c] + post) == FlattenCarts(pre) + CartRows(c) + FlattenCarts(post)
  {
    FlattenCartsAppend(pre + [c], post);
    FlattenCartsAppend(pre, [c]);
    assert [c][..0] == [];
  }

  lemma IndexInMiddle<T>(a: seq<T>, b: seq<T>, c: seq<T>, k: nat)
    requires k < |b|
    ensures |a| + k < |a + b + c| && (a + b + c)[|a| + k] == b[k]
  {
  }

  /** A cart without line items (no `products` key, or an empty list) yields no rows. */
  lemma EmptyCartNoRows(c: RawCart)
    requires c.products.None? || c.products == Some([])
    ensures CartRows(c) == []
  {
  }

  /** Every row of a cart carries the cart's id, its user id and one shared total. */
  lemma CartRowsShareTotal(c: RawCart)
    ensures forall r :: r in CartRows(c) ==>
      r.cartId == c.id && r.userId == c.userId && r.totalCartValue == CartTotal(ItemsOf(c))
  {
  }

  lemma {:induction false} ItemRowsValue(cartId: Option<int>, userId: Option<int>, items: seq<RawItem>, total: real)
    ensures RowsValue(ItemRows(cartId, userId, items, total)) == CartTotal(items)
  {
    if items != [] {
      var rows := ItemRows(cartId, userId, items, total);
      var init := ItemRows(cartId, userId, items[..|items| - 1], total);
      var last := ItemRow(cartId, userId, items[|items| - 1], total);
      assert rows == init + [last];
      assert rows[..|rows| - 1] == init && rows[|rows| - 1] == last;
      calc {
        RowsValue(rows);
        RowsValue(init) + RowValue(last);
        { ItemRowsValue(cartId, userId, items[..|items| - 1], total); }
        CartTotal(items[..|items| - 1]) + RowValue(last);
        CartTotal(items[..|items| - 1]) + ItemValue(items[|items| - 1]);
        CartTotal(items);
      }
    }
  }

  /**
   * Summing `quantity * price` over the rows of one cart gives back the
   * `total_cart_value` that every one of those rows carries.
   */
  lemma CartTotalReproduced(c: RawCart)
    ensures RowsValue(CartRows(c)) == CartTotal(ItemsOf(c))
    ensures forall r :: r in CartRows(c) ==> r.totalCartValue == RowsValue(CartRows(c))
  {
    ItemRowsValue(c.id, c.userId, ItemsOf(c), CartTotal(ItemsOf(c)));
  }

  /** The worked example: items (quantity 2, price 20) and (quantity 1, price 5) give 45 on both rows. */
  lemma TwoItemCartExample()
    ensures CartRows(RawCart(Some(10), Some(1), Some([RawItem(Some(5), Some(2), Some(20.0)), RawItem(Some(6), Some(1), Some(5.0))])))
         == [CartRow(Some(10), Some(1), Some(5), 2, 20.0, 45.0), CartRow(Some(10), Some(1), Some(6), 1, 5.0, 45.0)]
  {
    var items := [RawItem(Some(5), Some(2), Some(20.0)), RawItem(Some(6), Some(1), Some(5.0))];
    assert items[..1][..0] == [];
    assert CartTotal(items[..1]) == 40.0;
    assert CartTotal(items) == 45.0;
  }
}
