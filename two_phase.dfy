/** The naive two-phase engine of two-phase.py (`standard_two_phase`):
    transactions are {item: quantity} dictionaries valued by a profit table,
    candidates are joined level by level and their TWU found by rescanning
    every transaction, and the second phase rescans again for the exact
    utility of every candidate. */
module TwoPhase {
  import opened Db
  import opened Ordering
  import opened Apriori

  /** A transaction of two-phase.py: an {item: quantity} dictionary, held as
      its keys in iteration order and their quantities. */
  datatype Basket = Basket(items: seq<Item>, qty: seq<int>)

  /** What a Python dictionary guarantees: one quantity per key, no key
      twice. */
  predicate IsDict(b: Basket) {
    |b.items| == |b.qty| && Distinct(b.items)
  }

  /** The inputs `standard_two_phase` accepts without raising: dictionaries
      whose every item has a profit (`profits[item]` raises otherwise). */
  predicate Input(baskets: seq<Basket>, profits: map<Item, int>) {
    forall k :: 0 <= k < |baskets| ==> IsDict(baskets[k]) && Priced(baskets[k].items, profits)
  }

  predicate Priced(items: seq<Item>, profits: map<Item, int>) {
    forall i :: 0 <= i < |items| ==> items[i] in profits
  }

  /** The per-item utilities `profits[item] * qty` of a basket. */
  function Values(items: seq<Item>, qty: seq<int>, profits: map<Item, int>): (u: seq<int>)
    requires |items| == |qty| && Priced(items, profits)
    ensures |u| == |items|
    ensures forall i :: 0 <= i < |items| ==> u[i] == profits[items[i]] * qty[i]
  {
    if |items| == 0 then []
    else
      [profits[items[0]] * qty[0]] + Values(items[1..], qty[1..], profits)
  }

  /** A basket as a transaction of the shared model: its items, their
      utilities, and as its total the sum of those utilities
      (two-phase.py:18-19). */
  function Valued(b: Basket, profits: map<Item, int>): Txn
    requires IsDict(b) && Priced(b.items, profits)
  {
    var u := Values(b.items, b.qty, profits);
    Txn(b.items, u, Sum(u))
  }

  /** The database of valued transactions. */
  function ValuedDb(baskets: seq<Basket>, profits: map<Item, int>): (db: seq<Txn>)
    requires Input(baskets, profits)
    ensures |db| == |baskets|
    ensures forall k :: 0 <= k < |db| ==> db[k] == Valued(baskets[k], profits)
  {
    if |baskets| == 0 then []
    else ValuedDb(baskets[..|baskets| - 1], profits) + [Valued(baskets[|baskets| - 1], profits)]
  }

  /** The basket holds every item of X (`all(i in trans for i in X)`). */
  predicate HoldsAll(b: Basket, X: seq<Item>) {
    forall x :: x in X ==> x in b.items
  }

  predicate NonnegProfits(profits: map<Item, int>) {
    forall x :: x in profits ==> profits[x] >= 0
  }

  predicate NonnegQuantities(baskets: seq<Basket>) {
    forall k :: 0 <= k < |baskets| ==> Nonneg(baskets[k].qty)
  }

  /** Each valued transaction's total is the sum of its item utilities
      (two-phase.py:18-19), and with nonnegative profits and quantities the
      valued database is well formed, so TWU bounds utility. */
  lemma ValuedWellFormed(baskets: seq<Basket>, profits: map<Item, int>)
    requires Input(baskets, profits)
    ensures forall k :: 0 <= k < |baskets| ==> ValuedDb(baskets, profits)[k].total == Sum(ValuedDb(baskets, profits)[k].utils)
    ensures NonnegProfits(profits) && NonnegQuantities(baskets) ==> WellFormedDb(ValuedDb(baskets, profits))
  {
    var db := ValuedDb(baskets, profits);
    if NonnegProfits(profits) && NonnegQuantities(baskets) {
      forall k | 0 <= k < |db| ensures WellFormed(db[k]) {
        BasketWellFormed(baskets[k], profits);
      }
    }
  }

  /** One basket with nonnegative profits and quantities is valued as a
      well-formed transaction. */
  lemma BasketWellFormed(b: Basket, profits: map<Item, int>)
    requires IsDict(b) && Priced(b.items, profits)
    requires NonnegProfits(profits) && Nonneg(b.qty)
    ensures WellFormed(Valued(b, profits))
  {
    var u := Values(b.items, b.qty, profits);
    forall i | 0 <= i < |u| ensures u[i] >= 0 {
      var x := b.items[i];
      assert x in profits;
      assert u[i] == profits[x] * b.qty[i];
    }
  }

  // ---------------------------------------------------------------------
  // The quantity lookups of phase 2

  /** `sum(profits[item] * trans[item] for item in X)`. */
  function BasketUtil(b: Basket, profits: map<Item, int>, X: seq<Item>): int
    requires Priced(X, profits) && forall i :: 0 <= i < |X| ==> X[i] in Zip(b.items, b.qty)
  {
    if |X| == 0 then 0
    else
      profits[X[0]] * Zip(b.items, b.qty)[X[0]] + BasketUtil(b, profits, X[1..])
  }

  /** Looking one item up in the valued transaction gives its profit times
      its quantity. */
  lemma ValuedLookup(b: Basket, profits: map<Item, int>, x: Item)
    requires IsDict(b) && Priced(b.items, profits) && x in b.items
    ensures x in Zip(b.items, b.qty) && x in Dict(Valued(b, profits))
    ensures Dict(Valued(b, profits))[x] == profits[x] * Zip(b.items, b.qty)[x]
  {
    var k :| 0 <= k < |b.items| && b.items[k] == x;
    var u := Values(b.items, b.qty, profits);
    ZipAt(b.items, b.qty, k);
    ZipAt(b.items, u, k);
  }

  /** Phase 2's sum over a basket is the utility of X in the valued
      transaction. */
  lemma {:induction false} BasketUtilIsUtilIn(b: Basket, profits: map<Item, int>, X: seq<Item>)
    requires IsDict(b) && Priced(b.items, profits) && forall x :: x in X ==> x in b.items
    ensures Priced(X, profits) && forall i :: 0 <= i < |X| ==> X[i] in Zip(b.items, b.qty)
    ensures BasketUtil(b, profits, X) == UtilIn(Valued(b, profits), X)
  {
    forall i | 0 <= i < |X| ensures X[i] in profits && X[i] in Zip(b.items, b.qty) {
      var x := X[i];
      assert x in X;
      ValuedLookup(b, profits, x);
    }
    if |X| > 0 {
      var x := X[0];
      assert x in X;
      ValuedLookup(b, profits, x);
      assert forall y :: y in X[1..] ==> y in X;
      BasketUtilIsUtilIn(b, profits, X[1..]);
    }
  }

  /** A basket holds X exactly when its valued transaction does. */
  lemma ContainsValued(b: Basket, profits: map<Item, int>, X: seq<Item>)
    requires IsDict(b) && Priced(b.items, profits)
    ensures Contains(Valued(b, profits), X) <==> forall x :: x in X ==> x in b.items
  {
  }

  // ---------------------------------------------------------------------
  // Scans

  /** `unique_items.update(trans.keys())` over every transaction
      (two-phase.py:25-27), the set held as a duplicate-free sequence. */
  method UniqueItems(db: seq<Txn>) returns (u: seq<Item>)
    requires forall k :: 0 <= k < |db| ==> |db[k].items| == |db[k].utils|
    ensures Distinct(u) && forall x :: x in u <==> x in AllItems(db)
  {
    u := [];
    var k := 0;
    while k < |db|
      invariant 0 <= k <= |db|
      invariant Distinct(u) && forall x :: x in u <==> x in AllItems(db[..k])
    {
      u := AddNew(u, db[k].items);
      AllItemsSnoc(db, k);
      k := k + 1;
    }
    assert db[..k] == db;
  }

  /** The items of the first k + 1 transactions: those of the first k and
      those of transaction k. */
  lemma AllItemsSnoc(db: seq<Txn>, k: nat)
    requires k < |db|
    ensures forall x :: x in AllItems(db[..k + 1]) <==> x in AllItems(db[..k]) || x in Dict(db[k])
  {
    forall x ensures x in AllItems(db[..k + 1]) <==> x in AllItems(db[..k]) || x in Dict(db[k]) {
      if x in AllItems(db[..k + 1]) {
        var j, y :| 0 <= j < k + 1 && y in Dict(db[..k + 1][j]) && y == x;
        if j < k {
          assert db[..k][j] == db[j];
        }
      }
      if x in AllItems(db[..k]) {
        var j, y :| 0 <= j < k && y in Dict(db[..k][j]) && y == x;
        assert db[..k + 1][j] == db[j];
      }
      if x in Dict(db[k]) {
        assert db[..k + 1][k] == db[k];
      }
    }
  }

  /** The TWU of X by scanning every transaction (two-phase.py:31-34 and
      53-56). */
  method ScanTwu(db: seq<Txn>, X: seq<Item>) returns (twu: int)
    ensures twu == TWU(X, db)
  {
    twu := 0;
    var tid := 0;
    while tid < |db|
      invariant 0 <= tid <= |db|
      invariant twu == TWU(X, db[..tid])
    {
      assert db[..tid + 1][..tid] == db[..tid];
      if Contains(db[tid], X) {
        twu := twu + db[tid].total;
      }
      tid := tid + 1;
    }
    assert db[..tid] == db;
  }

  /** The exact utility of X by scanning every basket (two-phase.py:66-70). */
  method ScanUtility(baskets: seq<Basket>, profits: map<Item, int>, X: seq<Item>) returns (util: int)
    requires Input(baskets, profits)
    ensures util == Utility(X, ValuedDb(baskets, profits))
  {
    ghost var db := ValuedDb(baskets, profits);
    util := 0;
    var tid := 0;
    while tid < |baskets|
      invariant 0 <= tid <= |baskets|
      invariant util == Utility(X, db[..tid])
    {
      var b := baskets[tid];
      ScanStep(baskets, profits, X, tid);
      if HoldsAll(b, X) {
        util := util + BasketUtil(b, profits, X);
      }
      tid := tid + 1;
    }
    assert db[..tid] == db;
  }

  /** One more basket scanned: its utility is added exactly when it holds X. */
  lemma ScanStep(baskets: seq<Basket>, profits: map<Item, int>, X: seq<Item>, tid: nat)
    requires Input(baskets, profits) && tid < |baskets|
    ensures HoldsAll(baskets[tid], X) ==>
      Priced(X, profits) && (forall i :: 0 <= i < |X| ==> X[i] in Zip(baskets[tid].items, baskets[tid].qty))
      && Utility(X, ValuedDb(baskets, profits)[..tid + 1])
         == Utility(X, ValuedDb(baskets, profits)[..tid]) + BasketUtil(baskets[tid], profits, X)
    ensures !HoldsAll(baskets[tid], X) ==>
      Utility(X, ValuedDb(baskets, profits)[..tid + 1]) == Utility(X, ValuedDb(baskets, profits)[..tid])
  {
    var db := ValuedDb(baskets, profits);
    var b := baskets[tid];
    UtilityStep(X, db, tid);
    assert db[tid] == Valued(b, profits);
    ContainsValued(b, profits, X);
    if forall x :: x in X ==> x in b.items {
      BasketUtilIsUtilIn(b, profits, X);
    }
  }

  // ---------------------------------------------------------------------
  // Levels

  /** The itemsets the TWU filter of two-phase.py keeps: a non-empty
      increasing tuple of items the database mentions whose TWU reaches the
      threshold. Unlike ihup.py there is no test that it occurs. */
  ghost predicate Kept(X: seq<Item>, db: seq<Txn>, minUtil: int) {
    |X| > 0 && Increasing(X) && (forall x :: x in X ==> x in AllItems(db)) && TWU(X, db) >= minUtil
  }

  /** The first level (two-phase.py:28-36): the items in ascending order
      whose TWU reaches the threshold, each as a single-item tuple. */
  method FirstLevel(db: seq<Txn>, minUtil: int, sorted: seq<Item>) returns (level: seq<seq<Item>>)
    requires Increasing(sorted)
    ensures NoDupSeqs(level) && LexSorted(level)
    ensures forall X :: X in level ==> |X| == 1
    ensures forall x :: [x] in level <==> x in sorted && TWU([x], db) >= minUtil
  {
    level := [];
    var m := 0;
    while m < |sorted|
      invariant 0 <= m <= |sorted|
      invariant forall X :: X in level ==> |X| == 1
      invariant forall x :: [x] in level <==> x in sorted[..m] && TWU([x], db) >= minUtil
      invariant forall i :: 0 <= i < |level| ==> |level[i]| == 1 && (m < |sorted| ==> level[i][0] < sorted[m])
      invariant forall i, j :: 0 <= i < j < |level| ==> level[i][0] < level[j][0]
    {
      var x := sorted[m];
      assert sorted[..m + 1] == sorted[..m] + [x];
      var twu := ScanTwu(db, [x]);
      if twu >= minUtil {
        level := level + [[x]];
      }
      m := m + 1;
    }
    assert sorted[..m] == sorted;
    SingletonsLexSorted(level);
  }

  /** Single-item tuples in increasing order of their items are
      lexicographically sorted and distinct. */
  lemma SingletonsLexSorted(level: seq<seq<Item>>)
    requires forall i :: 0 <= i < |level| ==> |level[i]| == 1
    requires forall i, j :: 0 <= i < j < |level| ==> level[i][0] < level[j][0]
    ensures NoDupSeqs(level) && LexSorted(level)
  {
  }

  /** The pair s1, s2 of the previous level has been dealt with: they differ
      before their last item, or their union is not k long, or its TWU is
      below the threshold, or it is in the level (two-phase.py:49-58). */
  ghost predicate Handled(db: seq<Txn>, minUtil: int, k: nat, s1: seq<Item>, s2: seq<Item>, next: seq<seq<Item>>)
    requires |s1| > 0 && |s2| > 0
  {
    var X := Union(s1, s2);
    Head(s1) != Head(s2) || |X| != k || TWU(X, db) < minUtil || X in next
  }

  /** Every member of the previous level is kept and k - 1 long. */
  ghost predicate LevelOf(db: seq<Txn>, minUtil: int, k: nat, level: seq<seq<Item>>) {
    forall X :: X in level ==> |X| == k && Kept(X, db, minUtil)
  }

  /** A pair once handled stays handled as the level grows. */
  lemma HandledGrows(db: seq<Txn>, minUtil: int, k: nat, s1: seq<Item>, s2: seq<Item>, next0: seq<seq<Item>>, next: seq<seq<Item>>)
    requires |s1| > 0 && |s2| > 0
    requires Handled(db, minUtil, k, s1, s2, next0)
    requires forall X :: X in next0 ==> X in next
    ensures Handled(db, minUtil, k, s1, s2, next)
  {
  }

  /** The union of two kept itemsets is made of items the database
      mentions. */
  lemma UnionInItems(db: seq<Txn>, minUtil: int, s1: seq<Item>, s2: seq<Item>)
    requires Kept(s1, db, minUtil) && Kept(s2, db, minUtil)
    ensures |Union(s1, s2)| > 0 && forall x :: x in Union(s1, s2) ==> x in AllItems(db)
  {
    assert s1[0] in s1;
  }

  /** The body of the inner loop (two-phase.py:47-58). */
  method JoinPair(db: seq<Txn>, minUtil: int, k: nat, s1: seq<Item>, s2: seq<Item>, next0: seq<seq<Item>>)
    returns (next: seq<seq<Item>>)
    requires k >= 2 && |s1| == k - 1 && |s2| == k - 1
    requires Kept(s1, db, minUtil) && Kept(s2, db, minUtil)
    requires NoDupSeqs(next0) && LevelOf(db, minUtil, k, next0)
    ensures NoDupSeqs(next) && LevelOf(db, minUtil, k, next)
    ensures forall X :: X in next <==> X in next0 || (X == Union(s1, s2) && Head(s1) == Head(s2) && |X| == k
                                                    && TWU(X, db) >= minUtil)
    ensures Handled(db, minUtil, k, s1, s2, next)
  {
    next := next0;
    if Head(s1) == Head(s2) {
      var X := Union(s1, s2);
      if |X| == k {
        var twu := ScanTwu(db, X);
        if twu >= minUtil && X !in next {
          UnionInItems(db, minUtil, s1, s2);
          NoDupSeqsConcat(next, [X]);
          next := next + [X];
        }
      }
    }
  }

  /** The inner loop of JoinLevel: the pairs (i, j) for every j > i. */
  method JoinRow(db: seq<Txn>, minUtil: int, prev: seq<seq<Item>>, k: nat, i: nat, next0: seq<seq<Item>>)
    returns (next: seq<seq<Item>>)
    requires k >= 2 && i < |prev| && LevelOf(db, minUtil, k - 1, prev)
    requires NoDupSeqs(next0) && LevelOf(db, minUtil, k, next0)
    ensures NoDupSeqs(next) && LevelOf(db, minUtil, k, next)
    ensures forall X :: X in next0 ==> X in next
    ensures forall b :: i < b < |prev| ==> Handled(db, minUtil, k, prev[i], prev[b], next)
  {
    next := next0;
    var s1 := prev[i];
    assert s1 in prev;
    var j := i + 1;
    while j < |prev|
      invariant i + 1 <= j <= |prev|
      invariant NoDupSeqs(next) && LevelOf(db, minUtil, k, next)
      invariant forall X :: X in next0 ==> X in next
      invariant forall b :: i < b < j ==> Handled(db, minUtil, k, s1, prev[b], next)
    {
      var s2 := prev[j];
      assert s2 in prev;
      ghost var before := next;
      next := JoinPair(db, minUtil, k, s1, s2, next);
      forall b | i < b < j + 1 ensures Handled(db, minUtil, k, s1, prev[b], next) {
        if b < j {
          HandledGrows(db, minUtil, k, s1, prev[b], before, next);
        }
      }
      j := j + 1;
    }
  }

  /** One level of the join (two-phase.py:42-58): the kept itemsets of length
      k, each once, and among them every kept itemset of length k whose two
      generators were in the previous level. */
  method JoinLevel(db: seq<Txn>, minUtil: int, prev: seq<seq<Item>>, k: nat) returns (next: seq<seq<Item>>)
    requires k >= 2 && LevelOf(db, minUtil, k - 1, prev)
    ensures NoDupSeqs(next) && LevelOf(db, minUtil, k, next)
    ensures forall X :: |X| == k && Kept(X, db, minUtil) && Head(X) in prev && Skip(X) in prev ==> X in next
  {
    next := [];
    var n := |prev|;
    var i := 0;
    while i < n
      invariant 0 <= i <= n
      invariant NoDupSeqs(next) && LevelOf(db, minUtil, k, next)
      invariant forall a, b :: 0 <= a < i && a < b < n ==> Handled(db, minUtil, k, prev[a], prev[b], next)
    {
      ghost var before := next;
      next := JoinRow(db, minUtil, prev, k, i, next);
      RowsHandled(db, minUtil, k, prev, i, before, next);
      i := i + 1;
    }
    LevelComplete(db, minUtil, k, prev, next);
  }

  /** Row i joined: the pairs of the earlier rows stay handled, and those
      of row i are now handled too. */
  lemma RowsHandled(db: seq<Txn>, minUtil: int, k: nat, prev: seq<seq<Item>>, i: nat, before: seq<seq<Item>>, next: seq<seq<Item>>)
    requires k >= 2 && i < |prev| && LevelOf(db, minUtil, k - 1, prev)
    requires forall a, b :: 0 <= a < i && a < b < |prev| ==> Handled(db, minUtil, k, prev[a], prev[b], before)
    requires forall X :: X in before ==> X in next
    requires forall b :: i < b < |prev| ==> Handled(db, minUtil, k, prev[i], prev[b], next)
    ensures forall a, b :: 0 <= a < i + 1 && a < b < |prev| ==> Handled(db, minUtil, k, prev[a], prev[b], next)
  {
    forall a, b | 0 <= a < i + 1 && a < b < |prev| ensures Handled(db, minUtil, k, prev[a], prev[b], next) {
      if a < i {
        HandledGrows(db, minUtil, k, prev[a], prev[b], before, next);
      }
    }
  }

  /** When every pair of the previous level is handled, each kept itemset of
      length k whose two generators are in the previous level is in the
      level. */
  lemma LevelComplete(db: seq<Txn>, minUtil: int, k: nat, prev: seq<seq<Item>>, next: seq<seq<Item>>)
    requires k >= 2 && LevelOf(db, minUtil, k - 1, prev)
    requires forall a, b :: 0 <= a < b < |prev| ==> Handled(db, minUtil, k, prev[a], prev[b], next)
    ensures forall X :: |X| == k && Kept(X, db, minUtil) && Head(X) in prev && Skip(X) in prev ==> X in next
  {
    forall X | |X| == k && Kept(X, db, minUtil) && Head(X) in prev && Skip(X) in prev
      ensures X in next
    {
      Generators(X);
      var a, b := Head(X), Skip(X);
      var ia :| 0 <= ia < |prev| && prev[ia] == a;
      var ib :| 0 <= ib < |prev| && prev[ib] == b;
      UnionSymmetric(a, b);
      if ia < ib {
        assert Handled(db, minUtil, k, prev[ia], prev[ib], next);
      } else {
        assert Handled(db, minUtil, k, prev[ib], prev[ia], next);
      }
    }
  }

  // ---------------------------------------------------------------------
  // Properties of kept itemsets

  /** Both generators of a kept itemset are kept (TWU is anti-monotone when
      totals are nonnegative). */
  lemma KeptGenerators(X: seq<Item>, db: seq<Txn>, minUtil: int)
    requires TotalsNonneg(db) && Kept(X, db, minUtil) && |X| >= 2
    ensures Kept(Head(X), db, minUtil) && Kept(Skip(X), db, minUtil)
  {
    Generators(X);
    TwuAntiMonotone(Head(X), X, db);
    TwuAntiMonotone(Skip(X), X, db);
  }

  /** A kept itemset at least m long has a kept prefix of length m. */
  lemma KeptCut(X: seq<Item>, db: seq<Txn>, minUtil: int, m: nat)
    requires TotalsNonneg(db) && Kept(X, db, minUtil) && m > 0
    ensures |X| >= m ==> |X[..m]| == m && Kept(X[..m], db, minUtil)
  {
    if |X| >= m {
      TwuAntiMonotone(X[..m], X, db);
    }
  }

  /** With nonnegative totals, when no kept itemset has length m, none is
      longer either. */
  lemma NoneLonger(db: seq<Txn>, minUtil: int, m: nat)
    requires TotalsNonneg(db) && m > 0
    requires forall X :: !(Kept(X, db, minUtil) && |X| == m)
    ensures forall X :: Kept(X, db, minUtil) ==> |X| < m
  {
    forall X | Kept(X, db, minUtil) ensures |X| < m {
      KeptCut(X, db, minUtil, m);
    }
  }

  /** With well-formed transactions, a high-utility increasing itemset of
      items the database mentions is kept: the TWU filter never drops it
      (two-phase.py:53-57, 68-71). */
  lemma HighIsKept(X: seq<Item>, db: seq<Txn>, minUtil: int)
    requires WellFormedDb(db) && |X| > 0 && Increasing(X) && (forall x :: x in X ==> x in AllItems(db))
    requires Utility(X, db) >= minUtil
    ensures Kept(X, db, minUtil)
  {
    IncreasingDistinct(X);
    UtilityAtMostTwu(X, db);
  }

  // ---------------------------------------------------------------------
  // The order of the candidate list

  /** X comes before Y in a list built level by level, each level sorted:
      shorter first, then as tuples compare. */
  predicate LevelBefore(X: seq<Item>, Y: seq<Item>) {
    |X| < |Y| || (|X| == |Y| && LexLe(X, Y))
  }

  /** A list of tuples in level order. */
  predicate LevelOrdered(s: seq<seq<Item>>) {
    forall i, j :: 0 <= i < j < |s| ==> LevelBefore(s[i], s[j])
  }

  /** A report whose itemsets are in level order. */
  predicate ReportOrdered(r: seq<(seq<Item>, int)>) {
    forall i, j :: 0 <= i < j < |r| ==> LevelBefore(r[i].0, r[j].0)
  }

  /** A sorted level of k-tuples after a list of shorter tuples in level
      order keeps the list in level order. */
  lemma LevelOrderedConcat(all: seq<seq<Item>>, level: seq<seq<Item>>, k: nat)
    requires LevelOrdered(all) && LexSorted(level)
    requires forall X :: X in all ==> |X| < k
    requires forall X :: X in level ==> |X| == k
    ensures LevelOrdered(all + level)
  {
    var s := all + level;
    forall i, j | 0 <= i < j < |s| ensures LevelBefore(s[i], s[j]) {
      if j < |all| {
        assert s[i] == all[i] && s[j] == all[j];
      } else if i < |all| {
        assert s[i] == all[i] && all[i] in all;
        assert s[j] == level[j - |all|] && level[j - |all|] in level;
      } else {
        assert s[i] == level[i - |all|] && s[j] == level[j - |all|];
        assert level[i - |all|] in level;
      }
    }
  }

  /** Phase 2 reports the candidates in their order, so a candidate list in
      level order gives a report in level order. */
  lemma {:induction false} ReportKeepsOrder(cands: seq<seq<Item>>, db: seq<Txn>, minUtil: int)
    requires LevelOrdered(cands)
    ensures ReportOrdered(Report(cands, db, minUtil))
  {
    if |cands| > 0 {
      var init := cands[..|cands| - 1];
      var X := cands[|cands| - 1];
      assert LevelOrdered(init) by {
        forall i, j | 0 <= i < j < |init| ensures LevelBefore(init[i], init[j]) {
          assert init[i] == cands[i] && init[j] == cands[j];
        }
      }
      ReportKeepsOrder(init, db, minUtil);
      var r0 := Report(init, db, minUtil);
      forall i | 0 <= i < |r0| ensures LevelBefore(r0[i].0, X) {
        assert r0[i] in r0;
        var m :| 0 <= m < |init| && init[m] == r0[i].0;
        assert cands[m] == init[m];
      }
    }
  }

  // ---------------------------------------------------------------------
  // The engine

  /** What holds of the candidates before level k is built. */
  ghost predicate Candidates(db: seq<Txn>, minUtil: int, k: nat, level: seq<seq<Item>>, all: seq<seq<Item>>) {
    && k >= 2 && NoDupSeqs(level) && NoDupSeqs(all)
    && LevelOf(db, minUtil, k - 1, level)
    && (forall X :: X in level ==> X in all)
    && (forall X :: X in all ==> Kept(X, db, minUtil) && |X| < k)
  }

  /** Every kept itemset shorter than k is a candidate, and those of length
      k - 1 are in the last level. */
  ghost predicate AllCandidates(db: seq<Txn>, minUtil: int, k: nat, level: seq<seq<Item>>, all: seq<seq<Item>>) {
    && (forall X :: Kept(X, db, minUtil) && |X| == k - 1 ==> X in level)
    && (forall X :: Kept(X, db, minUtil) && |X| < k ==> X in all)
  }

  /** Phase 1 (two-phase.py:17-61): every level, in order, each sorted. The
      candidates are kept itemsets, each once; with nonnegative totals every
      kept itemset is among them. */
  method Candidate(db: seq<Txn>, minUtil: int) returns (all: seq<seq<Item>>)
    requires forall k :: 0 <= k < |db| ==> |db[k].items| == |db[k].utils|
    ensures NoDupSeqs(all) && forall X :: X in all ==> Kept(X, db, minUtil)
    ensures LevelOrdered(all)
    ensures TotalsNonneg(db) ==> forall X :: Kept(X, db, minUtil) ==> X in all
  {
    var unique := UniqueItems(db);
    var sorted := SortedSet(unique);
    var level := FirstLevel(db, minUtil, sorted);
    forall X | X in level ensures |X| == 1 && Kept(X, db, minUtil) {
      var x := X[0];
      Singleton(X);
      assert x in sorted;
    }
    forall X | Kept(X, db, minUtil) && |X| == 1 ensures X in level {
      var x := X[0];
      Singleton(X);
      assert x in X;
      assert x in sorted;
    }
    all := level;
    var k := 2;
    while |level| > 0
      invariant Candidates(db, minUtil, k, level, all)
      invariant LevelOrdered(all)
      invariant TotalsNonneg(db) ==> AllCandidates(db, minUtil, k, level, all)
      decreases |AllItems(db)| + 1 - k
    {
      var p0 := level[0];
      assert p0 in level;
      LengthBound(p0, AllItems(db));
      var next := JoinLevel(db, minUtil, level, k);
      var sortedNext := LexSort(next);
      NoDupSeqsMultiset(next, sortedNext);
      assert forall X :: X in sortedNext <==> X in next by {
        assert forall X :: X in sortedNext <==> X in multiset(sortedNext);
      }
      forall X | TotalsNonneg(db) && Kept(X, db, minUtil) && |X| == k ensures X in next {
        KeptGenerators(X, db, minUtil);
        Generators(X);
      }
      NoDupSeqsConcat(all, sortedNext);
      LevelOrderedConcat(all, sortedNext, k);
      level := sortedNext;
      all := all + level;
      k := k + 1;
    }
    if TotalsNonneg(db) {
      NoneLonger(db, minUtil, k - 1);
    }
  }

  /** Phase 2 (two-phase.py:64-72): each candidate, in order, with its exact
      utility, reported when that reaches the threshold. */
  method ExactPhase(baskets: seq<Basket>, profits: map<Item, int>, minUtil: int, cands: seq<seq<Item>>)
    returns (r: seq<(seq<Item>, int)>)
    requires Input(baskets, profits)
    ensures r == Report(cands, ValuedDb(baskets, profits), minUtil)
  {
    ghost var db := ValuedDb(baskets, profits);
    r := [];
    var c := 0;
    while c < |cands|
      invariant 0 <= c <= |cands|
      invariant r == Report(cands[..c], db, minUtil)
    {
      var X := cands[c];
      var util := ScanUtility(baskets, profits, X);
      if util >= minUtil {
        r := r + [(X, util)];
      }
      assert cands[..c + 1][..c] == cands[..c];
      c := c + 1;
    }
    assert cands[..c] == cands;
  }

  /** `standard_two_phase` (two-phase.py:1-74). Every reported pair is a kept
      itemset with its exact utility over the valued transactions, which
      reaches the threshold; no itemset is reported twice; with nonnegative
      totals every kept itemset of high utility is reported; and with
      nonnegative profits and quantities every high-utility increasing
      itemset of items the transactions mention is reported. */
  method StandardTwoPhase(baskets: seq<Basket>, profits: map<Item, int>, minUtil: int)
    returns (r: seq<(seq<Item>, int)>)
    requires Input(baskets, profits)
    ensures forall p :: p in r ==>
      Kept(p.0, ValuedDb(baskets, profits), minUtil) && p.1 == Utility(p.0, ValuedDb(baskets, profits)) && p.1 >= minUtil
    ensures NoDupKeys(r) && ReportOrdered(r)
    ensures TotalsNonneg(ValuedDb(baskets, profits)) ==>
      forall X :: Kept(X, ValuedDb(baskets, profits), minUtil) && Utility(X, ValuedDb(baskets, profits)) >= minUtil
        ==> (X, Utility(X, ValuedDb(baskets, profits))) in r
    ensures NonnegProfits(profits) && NonnegQuantities(baskets) ==>
      forall X :: (|X| > 0 && Increasing(X) && (forall x :: x in X ==> x in AllItems(ValuedDb(baskets, profits)))
                   && Utility(X, ValuedDb(baskets, profits)) >= minUtil) ==> (X, Utility(X, ValuedDb(baskets, profits))) in r
  {
    var db := ValuedDb(baskets, profits);
    var all := Candidate(db, minUtil);
    r := ExactPhase(baskets, profits, minUtil, all);
    ReportNoDup(all, db, minUtil);
    ReportKeepsOrder(all, db, minUtil);
    ValuedWellFormed(baskets, profits);
    if NonnegProfits(profits) && NonnegQuantities(baskets) {
      WellFormedTotals(db);
      forall X | |X| > 0 && Increasing(X) && (forall x :: x in X ==> x in AllItems(db)) && Utility(X, db) >= minUtil
        ensures Kept(X, db, minUtil)
      {
        HighIsKept(X, db, minUtil);
      }
    }
  }
}
