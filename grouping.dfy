/**
 * GROUP BY with SUM: each fact contributes an amount and an item count to the
 * group of its key. The groups are built by folding the facts into a list of
 * running totals, and proved equal to the declarative per-key sums.
 */
module Grouping {
  import opened Sorting

  /** One joined row, reduced to its group key and the two summed measures. */
  datatype Fact<K> = Fact(key: K, amount: real, count: int)

  /** One output group: the key with the sums over its facts. */
  datatype Group<K> = Group(key: K, total: real, items: int)

  /** SUM of `amount` over the facts with key `k`. */
  function Total<K(==)>(facts: seq<Fact<K>>, k: K): real {
    if facts == [] then 0.0
    else (if facts[0].key == k then facts[0].amount else 0.0) + Total(facts[1..], k)
  }

  /** SUM of `count` over the facts with key `k`. */
  function Items<K(==)>(facts: seq<Fact<K>>, k: K): int {
    if facts == [] then 0
    else (if facts[0].key == k then facts[0].count else 0) + Items(facts[1..], k)
  }

  predicate Occurs<K(==)>(facts: seq<Fact<K>>, k: K) {
    exists j :: 0 <= j < |facts| && facts[j].key == k
  }

  predicate HasKey<K(==)>(gs: seq<Group<K>>, k: K) {
    exists i :: 0 <= i < |gs| && gs[i].key == k
  }

  ghost predicate DistinctKeys<K>(gs: seq<Group<K>>) {
    forall i, j :: 0 <= i < j < |gs| ==> gs[i].key != gs[j].key
  }

  /** The running total of the first group with key `k`, 0 if there is none. */
  function TotalIn<K(==)>(gs: seq<Group<K>>, k: K): real {
    if gs == [] then 0.0
    else if gs[0].key == k then gs[0].total
    else TotalIn(gs[1..], k)
  }

  function ItemsIn<K(==)>(gs: seq<Group<K>>, k: K): int {
    if gs == [] then 0
    else if gs[0].key == k then gs[0].items
    else ItemsIn(gs[1..], k)
  }

  lemma HasKeyCons<K>(g: Group<K>, gs: seq<Group<K>>, k: K)
    ensures HasKey([g] + gs, k) <==> g.key == k || HasKey(gs, k)
  {
    if HasKey([g] + gs, k) && g.key != k {
      var i :| 0 <= i < |[g] + gs| && ([g] + gs)[i].key == k;
      assert gs[i - 1].key == k;
    }
    if HasKey(gs, k) {
      var i :| 0 <= i < |gs| && gs[i].key == k;
      assert ([g] + gs)[i + 1].key == k;
    }
    if g.key == k {
      assert ([g] + gs)[0].key == k;
    }
  }

  /** Adds one fact to the running totals: to its key's group, or as a new group. */
  function AddFact<K(==,!new)>(gs: seq<Group<K>>, f: Fact<K>): (r: seq<Group<K>>)
    ensures forall k :: HasKey(r, k) <==> HasKey(gs, k) || k == f.key
    ensures forall k :: TotalIn(r, k) == TotalIn(gs, k) + (if k == f.key then f.amount else 0.0)
    ensures forall k :: ItemsIn(r, k) == ItemsIn(gs, k) + (if k == f.key then f.count else 0)
    ensures DistinctKeys(gs) ==> DistinctKeys(r)
  {
    if gs == [] then
      assert forall k :: HasKey([Group(f.key, f.amount, f.count)], k) <==> k == f.key by {
        forall k ensures HasKey([Group(f.key, f.amount, f.count)], k) <==> k == f.key {
          assert [Group(f.key, f.amount, f.count)][0].key == f.key;
        }
      }
      [Group(f.key, f.amount, f.count)]
    else
      assert gs == [gs[0]] + gs[1..];
      assert forall k :: HasKey(gs, k) <==> gs[0].key == k || HasKey(gs[1..], k) by {
        forall k { HasKeyCons(gs[0], gs[1..], k); }
      }
      if gs[0].key == f.key then
        var g := Group(f.key, gs[0].total + f.amount, gs[0].items + f.count);
        assert forall k :: HasKey([g] + gs[1..], k) <==> g.key == k || HasKey(gs[1..], k) by {
          forall k { HasKeyCons(g, gs[1..], k); }
        }
        assert DistinctKeys(gs) ==> DistinctKeys([g] + gs[1..]) by {
          if DistinctKeys(gs) {
            forall i, j | 0 <= i < j < |[g] + gs[1..]| ensures ([g] + gs[1..])[i].key != ([g] + gs[1..])[j].key {
              assert ([g] + gs[1..])[j] == gs[j];
              if i > 0 {
                assert ([g] + gs[1..])[i] == gs[i];
              }
            }
          }
        }
        [g] + gs[1..]
      else
        var t := AddFact(gs[1..], f);
        assert forall k :: HasKey([gs[0]] + t, k) <==> gs[0].key == k || HasKey(t, k) by {
          forall k { HasKeyCons(gs[0], t, k); }
        }
        assert DistinctKeys(gs) ==> DistinctKeys([gs[0]] + t) by {
          if DistinctKeys(gs) {
            forall i | 0 <= i < |gs[1..]| ensures gs[1..][i].key != gs[0].key {
              assert gs[1..][i] == gs[i + 1];
            }
            assert DistinctKeys(gs[1..]) by {
              forall i, j | 0 <= i < j < |gs[1..]| ensures gs[1..][i].key != gs[1..][j].key {
                assert gs[1..][i] == gs[i + 1] && gs[1..][j] == gs[j + 1];
              }
            }
            forall i, j | 0 <= i < j < |[gs[0]] + t| ensures ([gs[0]] + t)[i].key != ([gs[0]] + t)[j].key {
              if i == 0 {
                assert HasKey(t, t[j - 1].key);
              } else {
                assert t[i - 1].key != t[j - 1].key;
              }
            }
          }
        }
        [gs[0]] + t
  }

  /** The groups of a list of facts, one per key that occurs, with their sums. */
  function GroupSum<K(==,!new)>(facts: seq<Fact<K>>): (gs: seq<Group<K>>)
    ensures DistinctKeys(gs)
    ensures forall k :: HasKey(gs, k) <==> Occurs(facts, k)
    ensures forall k :: TotalIn(gs, k) == Total(facts, k) && ItemsIn(gs, k) == Items(facts, k)
  {
    if facts == [] then []
    else
      var rest := GroupSum(facts[1..]);
      assert forall k :: Occurs(facts, k) <==> facts[0].key == k || Occurs(facts[1..], k) by {
        forall k ensures Occurs(facts, k) <==> facts[0].key == k || Occurs(facts[1..], k) {
          if Occurs(facts, k) && facts[0].key != k {
            var j :| 0 <= j < |facts| && facts[j].key == k;
            assert facts[1..][j - 1].key == k;
          }
          if Occurs(facts[1..], k) {
            var j :| 0 <= j < |facts[1..]| && facts[1..][j].key == k;
            assert facts[j + 1].key == k;
          }
        }
      }
      AddFact(rest, facts[0])
  }

  /** With distinct keys, each group's own running total is the one looked up by its key. */
  lemma {:induction false} LookupAt<K>(gs: seq<Group<K>>, i: nat)
    requires DistinctKeys(gs) && i < |gs|
    ensures TotalIn(gs, gs[i].key) == gs[i].total && ItemsIn(gs, gs[i].key) == gs[i].items
  {
    if i > 0 {
      assert gs[0].key != gs[i].key;
      assert gs[1..][i - 1] == gs[i];
      LookupAt(gs[1..], i - 1);
    }
  }

  /** Every group carries the sums over exactly the facts of its key. */
  lemma GroupSumTotals<K(!new)>(facts: seq<Fact<K>>)
    ensures forall i :: 0 <= i < |GroupSum(facts)| ==>
      GroupSum(facts)[i].total == Total(facts, GroupSum(facts)[i].key)
      && GroupSum(facts)[i].items == Items(facts, GroupSum(facts)[i].key)
  {
    var gs := GroupSum(facts);
    forall i | 0 <= i < |gs|
      ensures gs[i].total == Total(facts, gs[i].key) && gs[i].items == Items(facts, gs[i].key)
    {
      LookupAt(gs, i);
    }
  }

  /** The sums distribute over concatenation of the fact list. */
  lemma {:induction false} TotalAppend<K>(a: seq<Fact<K>>, b: seq<Fact<K>>, k: K)
    ensures Total(a + b, k) == Total(a, k) + Total(b, k)
    ensures Items(a + b, k) == Items(a, k) + Items(b, k)
  {
    if a == [] {
      assert a + b == b;
    } else {
      assert (a + b)[1..] == a[1..] + b;
      TotalAppend(a[1..], b, k);
    }
  }

  /** A key occurs in a concatenation iff it occurs in one of the parts. */
  lemma OccursAppend<K>(a: seq<Fact<K>>, b: seq<Fact<K>>, k: K)
    ensures Occurs(a + b, k) <==> Occurs(a, k) || Occurs(b, k)
  {
    if Occurs(a + b, k) {
      var j :| 0 <= j < |a + b| && (a + b)[j].key == k;
      if j < |a| {
        assert a[j].key == k;
      } else {
        assert b[j - |a|].key == k;
      }
    }
    if Occurs(a, k) {
      var j :| 0 <= j < |a| && a[j].key == k;
      assert (a + b)[j].key == k;
    }
    if Occurs(b, k) {
      var j :| 0 <= j < |b| && b[j].key == k;
      assert (a + b)[|a| + j].key == k;
    }
  }

  function KeyOf<K>(g: Group<K>): K { g.key }

  /** ORDER BY the summed amount, descending. */
  predicate TotalDesc<K>(a: Group<K>, b: Group<K>) {
    a.total >= b.total
  }

  lemma TotalDescPreorder<K(!new)>()
    ensures TotalPreorder(TotalDesc<K>)
  {
  }

  /** Any reordering of the folded groups still has distinct keys. */
  lemma PermutedGroupsDistinct<K(!new)>(facts: seq<Fact<K>>, gs: seq<Group<K>>)
    requires multiset(gs) == multiset(GroupSum(facts))
    ensures DistinctKeys(gs)
  {
    var folded := GroupSum(facts);
    assert DistinctBy(folded, KeyOf) by {
      forall i, j | 0 <= i < j < |folded| ensures KeyOf(folded[i]) != KeyOf(folded[j]) {
      }
    }
    PermutationKeepsDistinct(folded, gs, KeyOf);
    forall i, j | 0 <= i < j < |gs| ensures gs[i].key != gs[j].key {
      assert KeyOf(gs[i]) != KeyOf(gs[j]);
    }
  }

  /** Any reordering of the folded groups has a group exactly for each key that occurs. */
  lemma PermutedGroupsKeys<K(!new)>(facts: seq<Fact<K>>, gs: seq<Group<K>>)
    requires multiset(gs) == multiset(GroupSum(facts))
    ensures forall k :: HasKey(gs, k) <==> Occurs(facts, k)
  {
    var folded := GroupSum(facts);
    PermutationMembers(folded, gs);
    forall k ensures HasKey(gs, k) <==> HasKey(folded, k) {
      if HasKey(gs, k) {
        var i :| 0 <= i < |gs| && gs[i].key == k;
        assert gs[i] in folded;
      }
      if HasKey(folded, k) {
        var i :| 0 <= i < |folded| && folded[i].key == k;
        assert folded[i] in gs;
      }
    }
  }

  /** In any reordering of the folded groups, each group carries the sums over its key's facts. */
  lemma PermutedGroupsSums<K(!new)>(facts: seq<Fact<K>>, gs: seq<Group<K>>)
    requires multiset(gs) == multiset(GroupSum(facts))
    ensures forall i :: 0 <= i < |gs| ==> gs[i].total == Total(facts, gs[i].key) && gs[i].items == Items(facts, gs[i].key)
  {
    var folded := GroupSum(facts);
    GroupSumTotals(facts);
    PermutationMembers(folded, gs);
    forall i | 0 <= i < |gs| ensures gs[i].total == Total(facts, gs[i].key) && gs[i].items == Items(facts, gs[i].key) {
      assert gs[i] in folded;
    }
  }

  /**
   * GROUP BY key, SUM, ORDER BY the summed amount descending: the groups of
   * `facts` (a permutation of the folded groups), one per key that occurs,
   * each with the sums over its facts, in non-increasing order of total.
   */
  function RankedGroups<K(==,!new)>(facts: seq<Fact<K>>): (gs: seq<Group<K>>)
    ensures multiset(gs) == multiset(GroupSum(facts))
    ensures forall i, j :: 0 <= i < j < |gs| ==> gs[i].total >= gs[j].total
    ensures DistinctKeys(gs)
    ensures forall k :: HasKey(gs, k) <==> Occurs(facts, k)
    ensures forall i :: 0 <= i < |gs| ==> gs[i].total == Total(facts, gs[i].key) && gs[i].items == Items(facts, gs[i].key)
  {
    TotalDescPreorder<K>();
    var gs := SortBy(GroupSum(facts), TotalDesc);
    assert forall i, j :: 0 <= i < j < |gs| ==> TotalDesc(gs[i], gs[j]);
    PermutedGroupsDistinct(facts, gs);
    PermutedGroupsKeys(facts, gs);
    PermutedGroupsSums(facts, gs);
    gs
  }
}
