/**
 * The inner join of a table (users or products) with the carts table, as the
 * aggregating queries use it: every pair of a row and a cart row whose keys
 * match becomes one fact for GROUP BY, carrying the row's group key, the cart
 * row's `quantity * price` and its `quantity`. Cart rows are visited in order,
 * and for each cart row the rows of the other table in order; a SQL engine may
 * visit the pairs in any order, which changes no sum.
 */
module Join {
  import opened Wrappers
  import opened CleanData
  import opened Grouping

  /** SQL `=` on nullable integer keys: NULL matches nothing, not even NULL. */
  predicate KeyMatch(a: Option<int>, b: Option<int>) {
    a.Some? && b.Some? && a.value == b.value
  }

  /** The facts contributed by one cart row `c`: one per row of `rows` that joins it. */
  function FactsFor<R, K>(rows: seq<R>, c: CartRow, joins: (R, CartRow) -> bool, key: R -> K): seq<Fact<K>> {
    if rows == [] then []
    else
      (if joins(rows[0], c) then [Fact(key(rows[0]), RowValue(c), c.quantity)] else [])
      + FactsFor(rows[1..], c, joins, key)
  }

  /** The facts of the whole join. */
  function JoinFacts<R, K>(rows: seq<R>, carts: seq<CartRow>, joins: (R, CartRow) -> bool, key: R -> K): seq<Fact<K>> {
    if carts == [] then []
    else FactsFor(rows, carts[0], joins, key) + JoinFacts(rows, carts[1..], joins, key)
  }

  /** SUM(quantity * price) over the pairs of cart row `c` with the rows of group `k` that join it. */
  function PairsTotal<R, K(==)>(rows: seq<R>, c: CartRow, joins: (R, CartRow) -> bool, key: R -> K, k: K): real {
    if rows == [] then 0.0
    else (if joins(rows[0], c) && key(rows[0]) == k then RowValue(c) else 0.0) + PairsTotal(rows[1..], c, joins, key, k)
  }

  /** SUM(quantity) over the same pairs. */
  function PairsItems<R, K(==)>(rows: seq<R>, c: CartRow, joins: (R, CartRow) -> bool, key: R -> K, k: K): int {
    if rows == [] then 0
    else (if joins(rows[0], c) && key(rows[0]) == k then c.quantity else 0) + PairsItems(rows[1..], c, joins, key, k)
  }

  /** SUM(quantity * price) over all joined pairs of group `k`. */
  function JoinedTotal<R, K(==)>(rows: seq<R>, carts: seq<CartRow>, joins: (R, CartRow) -> bool, key: R -> K, k: K): real {
    if carts == [] then 0.0
    else PairsTotal(rows, carts[0], joins, key, k) + JoinedTotal(rows, carts[1..], joins, key, k)
  }

  /** SUM(quantity) over all joined pairs of group `k`. */
  function JoinedItems<R, K(==)>(rows: seq<R>, carts: seq<CartRow>, joins: (R, CartRow) -> bool, key: R -> K, k: K): int {
    if carts == [] then 0
    else PairsItems(rows, carts[0], joins, key, k) + JoinedItems(rows, carts[1..], joins, key, k)
  }

  lemma HeadSums<R, K>(head: seq<Fact<K>>, r: R, c: CartRow, joins: (R, CartRow) -> bool, key: R -> K, k: K)
    requires head == if joins(r, c) then [Fact(key(r), RowValue(c), c.quantity)] else []
    ensures Total(head, k) == if joins(r, c) && key(r) == k then RowValue(c) else 0.0
    ensures Items(head, k) == if joins(r, c) && key(r) == k then c.quantity else 0
  {
    if head != [] {
      assert head[1..] == [];
    }
  }

  lemma {:induction false} FactsForSums<R, K>(rows: seq<R>, c: CartRow, joins: (R, CartRow) -> bool, key: R -> K, k: K)
    ensures Total(FactsFor(rows, c, joins, key), k) == PairsTotal(rows, c, joins, key, k)
    ensures Items(FactsFor(rows, c, joins, key), k) == PairsItems(rows, c, joins, key, k)
  {
    if rows != [] {
      var head: seq<Fact<K>> := if joins(rows[0], c) then [Fact(key(rows[0]), RowValue(c), c.quantity)] else [];
      FactsForSums(rows[1..], c, joins, key, k);
      TotalAppend(head, FactsFor(rows[1..], c, joins, key), k);
      HeadSums(head, rows[0], c, joins, key, k);
    }
  }

  /** The sums over the facts of the join are the sums over all joined pairs. */
  lemma {:induction false} JoinSums<R, K>(rows: seq<R>, carts: seq<CartRow>, joins: (R, CartRow) -> bool, key: R -> K, k: K)
    ensures Total(JoinFacts(rows, carts, joins, key), k) == JoinedTotal(rows, carts, joins, key, k)
    ensures Items(JoinFacts(rows, carts, joins, key), k) == JoinedItems(rows, carts, joins, key, k)
  {
    if carts != [] {
      JoinSums(rows, carts[1..], joins, key, k);
      FactsForSums(rows, carts[0], joins, key, k);
      TotalAppend(FactsFor(rows, carts[0], joins, key), JoinFacts(rows, carts[1..], joins, key), k);
    }
  }

  lemma {:induction false} FactsForOccurs<R, K>(rows: seq<R>, c: CartRow, joins: (R, CartRow) -> bool, key: R -> K, k: K)
    ensures Occurs(FactsFor(rows, c, joins, key), k) <==> exists i :: 0 <= i < |rows| && joins(rows[i], c) && key(rows[i]) == k
  {
    if rows != [] {
      var head: seq<Fact<K>> := if joins(rows[0], c) then [Fact(key(rows[0]), RowValue(c), c.quantity)] else [];
      FactsForOccurs(rows[1..], c, joins, key, k);
      OccursAppend(head, FactsFor(rows[1..], c, joins, key), k);
      if head != [] {
        assert Occurs(head, k) <==> key(rows[0]) == k by {
          assert head[0].key == key(rows[0]);
        }
      }
      if exists i :: 0 <= i < |rows| && joins(rows[i], c) && key(rows[i]) == k {
        var i :| 0 <= i < |rows| && joins(rows[i], c) && key(rows[i]) == k;
        if i > 0 {
          assert rows[1..][i - 1] == rows[i];
        }
      }
      if exists i :: 0 <= i < |rows[1..]| && joins(rows[1..][i], c) && key(rows[1..][i]) == k {
        var i :| 0 <= i < |rows[1..]| && joins(rows[1..][i], c) && key(rows[1..][i]) == k;
        assert rows[i + 1] == rows[1..][i];
      }
    }
  }

  /** A group key occurs in the join iff some row with that key joins some cart row. */
  lemma {:induction false} JoinOccurs<R, K>(rows: seq<R>, carts: seq<CartRow>, joins: (R, CartRow) -> bool, key: R -> K, k: K)
    ensures Occurs(JoinFacts(rows, carts, joins, key), k)
        <==> exists i, j :: 0 <= i < |rows| && 0 <= j < |carts| && joins(rows[i], carts[j]) && key(rows[i]) == k
  {
    if carts != [] {
      JoinOccurs(rows, carts[1..], joins, key, k);
      FactsForOccurs(rows, carts[0], joins, key, k);
      OccursAppend(FactsFor(rows, carts[0], joins, key), JoinFacts(rows, carts[1..], joins, key), k);
      if exists i, j :: 0 <= i < |rows| && 0 <= j < |carts| && joins(rows[i], carts[j]) && key(rows[i]) == k {
        var i, j :| 0 <= i < |rows| && 0 <= j < |carts| && joins(rows[i], carts[j]) && key(rows[i]) == k;
        if j > 0 {
          assert carts[1..][j - 1] == carts[j];
        }
      }
      if exists i, j :: 0 <= i < |rows| && 0 <= j < |carts[1..]| && joins(rows[i], carts[1..][j]) && key(rows[i]) == k {
        var i, j :| 0 <= i < |rows| && 0 <= j < |carts[1..]| && joins(rows[i], carts[1..][j]) && key(rows[i]) == k;
        assert carts[j + 1] == carts[1..][j];
      }
    }
  }

  /** The join distributes over concatenation of the carts table. */
  lemma {:induction false} JoinFactsAppend<R, K>(rows: seq<R>, a: seq<CartRow>, b: seq<CartRow>, joins: (R, CartRow) -> bool, key: R -> K)
    ensures JoinFacts(rows, a + b, joins, key) == JoinFacts(rows, a, joins, key) + JoinFacts(rows, b, joins, key)
  {
    if a == [] {
      assert a + b == b;
    } else {
      assert (a + b)[1..] == a[1..] + b;
      JoinFactsAppend(rows, a[1..], b, joins, key);
    }
  }

  /** The facts of one cart row distribute over concatenation of the other table. */
  lemma {:induction false} FactsForAppend<R, K>(a: seq<R>, b: seq<R>, c: CartRow, joins: (R, CartRow) -> bool, key: R -> K)
    ensures FactsFor(a + b, c, joins, key) == FactsFor(a, c, joins, key) + FactsFor(b, c, joins, key)
  {
    if a == [] {
      assert a + b == b;
    } else {
      assert (a + b)[1..] == a[1..] + b;
      FactsForAppend(a[1..], b, c, joins, key);
    }
  }

  /** A cart row that joins no row contributes no fact, wherever it stands. */
  lemma UnjoinedCartRowIgnored<R, K>(rows: seq<R>, a: seq<CartRow>, c: CartRow, b: seq<CartRow>, joins: (R, CartRow) -> bool, key: R -> K)
    requires forall i :: 0 <= i < |rows| ==> !joins(rows[i], c)
    ensures JoinFacts(rows, a + [c] + b, joins, key) == JoinFacts(rows, a + b, joins, key)
  {
    assert FactsFor(rows, c, joins, key) == [] by {
      FactsForOccursNone(rows, c, joins, key);
    }
    assert JoinFacts(rows, [c], joins, key) == [] by {
      assert [c][1..] == [];
      assert JoinFacts(rows, [c], joins, key) == FactsFor(rows, c, joins, key) + JoinFacts(rows, [], joins, key);
    }
    JoinFactsAppend(rows, a + [c], b, joins, key);
    JoinFactsAppend(rows, a, [c], joins, key);
    JoinFactsAppend(rows, a, b, joins, key);
    assert JoinFacts(rows, a + [c], joins, key) == JoinFacts(rows, a, joins, key);
  }

  lemma {:induction false} FactsForOccursNone<R, K>(rows: seq<R>, c: CartRow, joins: (R, CartRow) -> bool, key: R -> K)
    requires forall i :: 0 <= i < |rows| ==> !joins(rows[i], c)
    ensures FactsFor(rows, c, joins, key) == []
  {
    if rows != [] {
      assert !joins(rows[0], c);
      FactsForOccursNone(rows[1..], c, joins, key);
    }
  }

  /** A row that does not join cart row `c` adds no fact for `c`, wherever it stands. */
  lemma FactsForSkip<R, K>(a: seq<R>, r: R, b: seq<R>, c: CartRow, joins: (R, CartRow) -> bool, key: R -> K)
    requires !joins(r, c)
    ensures FactsFor(a + [r] + b, c, joins, key) == FactsFor(a + b, c, joins, key)
  {
    FactsForAppend(a + [r], b, c, joins, key);
    FactsForAppend(a, [r], c, joins, key);
    FactsForAppend(a, b, c, joins, key);
    assert FactsFor([r], c, joins, key) == [] by {
      assert [r][1..] == [];
    }
  }

  /** A row that joins no cart row contributes no fact, wherever it stands. */
  lemma {:induction false} UnjoinedRowIgnored<R, K>(a: seq<R>, r: R, b: seq<R>, carts: seq<CartRow>, joins: (R, CartRow) -> bool, key: R -> K)
    requires forall j :: 0 <= j < |carts| ==> !joins(r, carts[j])
    ensures JoinFacts(a + [r] + b, carts, joins, key) == JoinFacts(a + b, carts, joins, key)
  {
    if carts != [] {
      FactsForSkip(a, r, b, carts[0], joins, key);
      UnjoinedRowIgnored(a, r, b, carts[1..], joins, key);
      assert JoinFacts(a + [r] + b, carts, joins, key)
          == FactsFor(a + [r] + b, carts[0], joins, key) + JoinFacts(a + [r] + b, carts[1..], joins, key);
    }
  }

  lemma {:induction false} PairsZero<R, K>(rows: seq<R>, c: CartRow, joins: (R, CartRow) -> bool, key: R -> K, k: K)
    requires forall i :: 0 <= i < |rows| ==> !(joins(rows[i], c) && key(rows[i]) == k)
    ensures PairsTotal(rows, c, joins, key, k) == 0.0 && PairsItems(rows, c, joins, key, k) == 0
  {
    if rows != [] {
      assert !(joins(rows[0], c) && key(rows[0]) == k);
      PairsZero(rows[1..], c, joins, key, k);
    }
  }

  /** When only row `n` can be of group `k` and join `c`, the pairs of `c` are that one pair or none. */
  lemma {:induction false} PairsSingle<R, K>(rows: seq<R>, n: nat, c: CartRow, joins: (R, CartRow) -> bool, key: R -> K, k: K)
    requires n < |rows|
    requires forall i :: 0 <= i < |rows| && i != n ==> !(joins(rows[i], c) && key(rows[i]) == k)
    ensures PairsTotal(rows, c, joins, key, k) == if joins(rows[n], c) && key(rows[n]) == k then RowValue(c) else 0.0
    ensures PairsItems(rows, c, joins, key, k) == if joins(rows[n], c) && key(rows[n]) == k then c.quantity else 0
  {
    if n == 0 {
      PairsZero(rows[1..], c, joins, key, k);
    } else {
      assert !(joins(rows[0], c) && key(rows[0]) == k);
      assert rows[1..][n - 1] == rows[n];
      PairsSingle(rows[1..], n - 1, c, joins, key, k);
    }
  }
}
