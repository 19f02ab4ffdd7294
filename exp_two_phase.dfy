/** The set-based two-phase engine of experiments/two_phase.py: candidates of
    length k are the increasing k-combinations over the items of the previous
    level all of whose (k - 1)-combinations are in it, a pass over the
    transactions keeps those whose TWU reaches the threshold, and a last pass
    computes the exact utility of every candidate. */
module ExpTwoPhase {
  import opened Db
  import opened Apriori

  // ---------------------------------------------------------------------
  // Transactions as the script reads them

  /** `set(cand).issubset(items)`: every item of X is listed in the line. */
  predicate Holds(t: Txn, X: seq<Item>) {
    forall x :: x in X ==> x in t.items
  }

  /** The TWU the script's `twu_map` accumulates: the totals of the lines
      listing every item of X. */
  function ListedTwu(X: seq<Item>, db: seq<Txn>): int {
    if |db| == 0 then 0
    else ListedTwu(X, db[..|db| - 1]) + (if Holds(db[|db| - 1], X) then db[|db| - 1].total else 0)
  }

  /** Some line lists every item of X, so `twu_map` has a key for X. */
  predicate Supported(X: seq<Item>, db: seq<Txn>) {
    exists k :: 0 <= k < |db| && Holds(db[k], X)
  }

  /** Every listed item of every line has a utility, so that
      `item2util[i]` never raises. */
  predicate Listed(db: seq<Txn>) {
    forall k :: 0 <= k < |db| ==> |db[k].items| <= |db[k].utils|
  }

  /** Every item any line lists. */
  function ListedItems(db: seq<Txn>): set<Item> {
    set k, i | 0 <= k < |db| && i in db[k].items :: i
  }

  /** When every listed item has a utility, a line lists X exactly when its
      dictionary holds X. */
  lemma ListedHolds(t: Txn, X: seq<Item>)
    requires |t.items| <= |t.utils|
    ensures Holds(t, X) <==> Contains(t, X)
  {
    ZipKeys(t.items, t.utils);
    assert t.items[..Min(|t.items|, |t.utils|)] == t.items;
  }

  /** When every listed item has a utility, the script's TWU and support are
      the shared model's. */
  lemma {:induction false} ListedTwuIsTwu(X: seq<Item>, db: seq<Txn>)
    requires Listed(db)
    ensures ListedTwu(X, db) == TWU(X, db)
    ensures Supported(X, db) <==> Occurs(X, db)
  {
    forall k | 0 <= k < |db| ensures Holds(db[k], X) <==> Contains(db[k], X) {
      ListedHolds(db[k], X);
    }
    if |db| > 0 {
      var init := db[..|db| - 1];
      assert Listed(init) by {
        assert forall k :: 0 <= k < |init| ==> init[k] == db[k];
      }
      ListedTwuIsTwu(X, init);
    }
  }

  // ---------------------------------------------------------------------
  // The TWU table of parse_file

  /** How many times x occurs in s, counted front to back. */
  lemma {:induction false} CountSnoc(s: seq<Item>, y: Item, x: Item)
    ensures Count(s + [y], x) == Count(s, x) + (if y == x then 1 else 0)
  {
    if |s| > 0 {
      assert (s + [y])[1..] == s[1..] + [y];
      CountSnoc(s[1..], y, x);
    }
  }

  /** The inner loop of parse_file's TWU accumulation: `TWU[item] += total`
      for every item of one line, repeats included (experiments/two_phase.py:22-23). */
  method AddOccurrences(twu0: map<Item, int>, items: seq<Item>, total: int) returns (twu: map<Item, int>)
    ensures forall x :: x in twu <==> x in twu0 || x in items
    ensures forall x :: x in twu ==> twu[x] == (if x in twu0 then twu0[x] else 0) + Count(items, x) * total
  {
    twu := twu0;
    var m := 0;
    while m < |items|
      invariant 0 <= m <= |items|
      invariant forall x :: x in twu <==> x in twu0 || x in items[..m]
      invariant forall x :: x in twu ==> twu[x] == (if x in twu0 then twu0[x] else 0) + Count(items[..m], x) * total
    {
      var y := items[m];
      assert items[..m + 1] == items[..m] + [y];
      forall x ensures Count(items[..m + 1], x) * total == Count(items[..m], x) * total + (if y == x then total else 0) {
        CountSnoc(items[..m], y, x);
      }
      if y in twu {
        twu := twu[y := twu[y] + total];
      } else {
        CountAbsent(items[..m], y);
        twu := twu[y := total];
      }
      m := m + 1;
    }
    assert items[..m] == items;
  }

  /** The TWU table parse_file builds (experiments/two_phase.py:13-23): every
      listed item, with the total of its line added once per occurrence. */
  method OccurrenceTwus(db: seq<Txn>) returns (twu: map<Item, int>)
    ensures forall x :: x in twu <==> x in ListedItems(db)
    ensures forall x :: x in twu ==> twu[x] == OccurrenceTwu(x, db)
  {
    twu := map[];
    var tid := 0;
    while tid < |db|
      invariant 0 <= tid <= |db|
      invariant forall x :: x in twu <==> x in ListedItems(db[..tid])
      invariant forall x :: x in twu ==> twu[x] == OccurrenceTwu(x, db[..tid])
    {
      ghost var before := twu;
      twu := AddOccurrences(twu, db[tid].items, db[tid].total);
      ListedItemsSnoc(db, tid);
      assert db[..tid + 1][..tid] == db[..tid];
      forall x | x in twu ensures twu[x] == OccurrenceTwu(x, db[..tid + 1]) {
        if x !in before {
          AbsentOccurrence(x, db[..tid]);
        }
      }
      tid := tid + 1;
    }
    assert db[..tid] == db;
  }

  /** The items listed by the first k + 1 lines. */
  lemma ListedItemsSnoc(db: seq<Txn>, k: nat)
    requires k < |db|
    ensures forall x :: x in ListedItems(db[..k + 1]) <==> x in ListedItems(db[..k]) || x in db[k].items
  {
    forall x ensures x in ListedItems(db[..k + 1]) <==> x in ListedItems(db[..k]) || x in db[k].items {
      if x in ListedItems(db[..k + 1]) {
        var j, y :| 0 <= j < k + 1 && y in db[..k + 1][j].items && y == x;
        if j < k {
          assert db[..k][j] == db[j];
        }
      }
      if x in ListedItems(db[..k]) {
        var j, y :| 0 <= j < k && y in db[..k][j].items && y == x;
        assert db[..k + 1][j] == db[j];
      }
      if x in db[k].items {
        assert db[..k + 1][k] == db[k];
      }
    }
  }

  /** An item no line lists has no occurrence TWU. */
  lemma {:induction false} AbsentOccurrence(x: Item, db: seq<Txn>)
    requires x !in ListedItems(db)
    ensures OccurrenceTwu(x, db) == 0
  {
    if |db| > 0 {
      var init := db[..|db| - 1];
      var last := db[|db| - 1];
      ListedItemsSnoc(db, |db| - 1);
      assert db[..|db|] == db;
      AbsentOccurrence(x, init);
      CountAbsent(last.items, x);
    }
  }

  lemma {:induction false} CountAbsent(s: seq<Item>, x: Item)
    requires x !in s
    ensures Count(s, x) == 0
  {
    if |s| > 0 {
      assert s[0] in s;
      assert forall y :: y in s[1..] ==> y in s;
      CountAbsent(s[1..], x);
    }
  }

  // ---------------------------------------------------------------------
  // Combinations

  /** `combinations(sorted(S), k)` as a set: the increasing k-tuples of
      members of S. */
  function Combos(S: set<Item>, k: nat): (r: set<seq<Item>>)
    ensures forall X :: X in r ==> |X| == k && Increasing(X) && forall x :: x in X ==> x in S
    decreases k
  {
    if k == 0 then {[]}
    else
      var shorter := Combos(S, k - 1);
      set x, c | x in S && c in shorter && (|c| == 0 || x < c[0]) :: [x] + c
  }

  /** Every increasing k-tuple of members of S is a combination. */
  lemma {:induction false} CombosComplete(S: set<Item>, k: nat, X: seq<Item>)
    requires |X| == k && Increasing(X) && forall x :: x in X ==> x in S
    ensures X in Combos(S, k)
  {
    if k > 0 {
      IncreasingSplit(X);
      var x, c := X[0], X[1..];
      assert x in X;
      CombosComplete(S, k - 1, c);
      assert X == [x] + c;
    }
  }

  /** Membership in Combos, for every S. */
  lemma CombosExact(k: nat)
    ensures forall S: set<Item>, X: seq<Item> ::
      X in Combos(S, k) <==> |X| == k && Increasing(X) && forall x :: x in X ==> x in S
  {
    forall S: set<Item>, X: seq<Item> | |X| == k && Increasing(X) && forall x :: x in X ==> x in S
      ensures X in Combos(S, k)
    {
      CombosComplete(S, k, X);
    }
  }

  /** `{i for subset in prev_freq for i in subset}`. */
  function ItemsOf(prev: set<seq<Item>>): set<Item> {
    set S, i | S in prev && i in S :: i
  }

  /** Every (k - 1)-combination of X's items is in prev. */
  ghost predicate SubsIn(X: seq<Item>, prev: set<seq<Item>>, k: nat)
    requires k >= 1
  {
    forall Y :: |Y| == k - 1 && Increasing(Y) && (forall y :: y in Y ==> y in X) ==> Y in prev
  }

  /** `generate_candidates` (experiments/two_phase.py:27-33): exactly the
      increasing k-tuples over the items of prev all of whose
      (k - 1)-combinations are in prev. */
  function GenerateCandidates(prev: set<seq<Item>>, k: nat): (r: set<seq<Item>>)
    requires k >= 1
    ensures forall X :: X in r <==>
      |X| == k && Increasing(X) && (forall x :: x in X ==> x in ItemsOf(prev)) && SubsIn(X, prev, k)
  {
    CombosExact(k);
    CombosExact(k - 1);
    set X | X in Combos(ItemsOf(prev), k) && forall Y :: Y in Combos(Elems(X), k - 1) ==> Y in prev
  }

  // ---------------------------------------------------------------------
  // The two passes over the transactions

  /** The inner loop of filter_by_twu: every candidate the line lists gains
      the line's total. */
  method AddTotal(twu0: map<seq<Item>, int>, cands: set<seq<Item>>, t: Txn) returns (twu: map<seq<Item>, int>)
    ensures forall X :: X in twu <==> X in twu0 || (X in cands && Holds(t, X))
    ensures forall X :: X in twu ==>
      twu[X] == (if X in twu0 then twu0[X] else 0) + (if X in cands && Holds(t, X) then t.total else 0)
  {
    twu := twu0;
    var rest := cands;
    while rest != {}
      invariant rest <= cands
      invariant forall X :: X in twu <==> X in twu0 || (X in cands - rest && Holds(t, X))
      invariant forall X :: X in twu ==>
        twu[X] == (if X in twu0 then twu0[X] else 0) + (if X in cands - rest && Holds(t, X) then t.total else 0)
      decreases |rest|
    {
      var c :| c in rest;
      if Holds(t, c) {
        twu := twu[c := (if c in twu then twu[c] else 0) + t.total];
      }
      rest := rest - {c};
    }
  }

  /** `filter_by_twu` (experiments/two_phase.py:36-42): the candidates some
      line lists whose TWU reaches the threshold. */
  method FilterByTwu(cands: set<seq<Item>>, db: seq<Txn>, minUtil: int) returns (r: set<seq<Item>>)
    ensures forall X :: X in r <==> X in cands && Supported(X, db) && ListedTwu(X, db) >= minUtil
  {
    var twu: map<seq<Item>, int> := map[];
    var tid := 0;
    while tid < |db|
      invariant 0 <= tid <= |db|
      invariant forall X :: X in twu <==> X in cands && Supported(X, db[..tid])
      invariant forall X :: X in twu ==> twu[X] == ListedTwu(X, db[..tid])
    {
      twu := AddTotal(twu, cands, db[tid]);
      SupportedSnoc(db, tid);
      assert db[..tid + 1][..tid] == db[..tid];
      tid := tid + 1;
    }
    assert db[..tid] == db;
    r := set X | X in twu && twu[X] >= minUtil;
  }

  /** Some of the first k + 1 lines list X: some of the first k do, or line
      k does; and when none of the first k do, their TWU is zero. */
  lemma SupportedSnoc(db: seq<Txn>, k: nat)
    requires k < |db|
    ensures forall X :: Supported(X, db[..k + 1]) <==> Supported(X, db[..k]) || Holds(db[k], X)
    ensures forall X :: !Supported(X, db[..k]) ==> ListedTwu(X, db[..k]) == 0
  {
    forall X ensures Supported(X, db[..k + 1]) <==> Supported(X, db[..k]) || Holds(db[k], X) {
      if Supported(X, db[..k + 1]) {
        var j :| 0 <= j < k + 1 && Holds(db[..k + 1][j], X);
        if j < k {
          assert db[..k][j] == db[j];
        }
      }
      if Supported(X, db[..k]) {
        var j :| 0 <= j < k && Holds(db[..k][j], X);
        assert db[..k + 1][j] == db[j];
      }
      if Holds(db[k], X) {
        assert db[..k + 1][k] == db[k];
      }
    }
    forall X | !Supported(X, db[..k]) ensures ListedTwu(X, db[..k]) == 0 {
      Unsupported(X, db[..k]);
    }
  }

  lemma {:induction false} Unsupported(X: seq<Item>, db: seq<Txn>)
    requires !Supported(X, db)
    ensures ListedTwu(X, db) == 0
  {
    if |db| > 0 {
      var init := db[..|db| - 1];
      forall j | 0 <= j < |init| ensures !Holds(init[j], X) {
        assert init[j] == db[j];
      }
      assert !Holds(db[|db| - 1], X);
      Unsupported(X, init);
    }
  }

  /** The line lists every item of X but pairs one of them with no utility,
      so that `item2util[i]` raises `KeyError` (experiments/two_phase.py:48-51). */
  predicate Unpaired(t: Txn, X: seq<Item>) {
    Holds(t, X) && !Contains(t, X)
  }

  /** Some line lists some candidate with an unpaired item:
      compute_exact_utils raises. */
  predicate Raises(cands: set<seq<Item>>, db: seq<Txn>) {
    exists k, X :: 0 <= k < |db| && X in cands && Unpaired(db[k], X)
  }

  /** Every key of a line's dictionary is listed in the line. */
  lemma ContainsHolds(t: Txn, X: seq<Item>)
    ensures Contains(t, X) ==> Holds(t, X)
  {
    ZipKeys(t.items, t.utils);
    forall x | x in X && x in Dict(t) ensures x in t.items {
      assert x in t.items[..Min(|t.items|, |t.utils|)];
    }
  }

  /** With every listed item paired, no candidate raises. */
  lemma ListedNeverRaises(cands: set<seq<Item>>, db: seq<Txn>)
    requires Listed(db)
    ensures !Raises(cands, db)
  {
    forall k, X | 0 <= k < |db| && X in cands ensures !Unpaired(db[k], X) {
      ListedHolds(db[k], X);
    }
  }

  /** One line more raises exactly when the earlier lines or this one do. */
  lemma RaisesSnoc(cands: set<seq<Item>>, db: seq<Txn>, n: nat)
    requires n < |db|
    ensures Raises(cands, db[..n + 1]) <==> Raises(cands, db[..n]) || exists X :: X in cands && Unpaired(db[n], X)
  {
    var a, b := db[..n + 1], db[..n];
    if Raises(cands, a) {
      var k, X :| 0 <= k < |a| && X in cands && Unpaired(a[k], X);
      if k < n {
        assert b[k] == a[k];
      } else {
        assert a[k] == db[n];
      }
    }
    if Raises(cands, b) {
      var k, X :| 0 <= k < |b| && X in cands && Unpaired(b[k], X);
      assert a[k] == b[k];
    }
    if exists X :: X in cands && Unpaired(db[n], X) {
      var X :| X in cands && Unpaired(db[n], X);
      assert a[n] == db[n];
    }
  }

  /** The inner loop of compute_exact_utils: every candidate the line lists
      gains the sum of its items' utilities in the line, and the lookup
      fails when one of those items has no utility. */
  method AddUtility(util0: map<seq<Item>, int>, cands: set<seq<Item>>, t: Txn) returns (r: Option<map<seq<Item>, int>>)
    requires forall X :: X in cands ==> X in util0
    ensures r.None? <==> exists X :: X in cands && Unpaired(t, X)
    ensures r.Some? ==> forall X :: X in r.value <==> X in util0
    ensures r.Some? ==> forall X :: X in r.value ==>
      r.value[X] == util0[X] + (if X in cands && Contains(t, X) then UtilIn(t, X) else 0)
  {
    var util := util0;
    var item2util := Zip(t.items, t.utils);
    var rest := cands;
    while rest != {}
      invariant rest <= cands
      invariant forall X :: X in cands - rest ==> !Unpaired(t, X)
      invariant forall X :: X in util <==> X in util0
      invariant forall X :: X in util ==>
        util[X] == util0[X] + (if X in cands - rest && Contains(t, X) then UtilIn(t, X) else 0)
      decreases |rest|
    {
      var c :| c in rest;
      ContainsHolds(t, c);
      if Holds(t, c) {
        if forall i :: i in c ==> i in item2util {
          util := util[c := util[c] + SumOf(item2util, c)];
        } else {
          assert Unpaired(t, c);
          return None;
        }
      }
      rest := rest - {c};
    }
    return Some(util);
  }

  /** `compute_exact_utils` (experiments/two_phase.py:45-52): every candidate
      whose exact utility reaches the threshold, mapped to that utility, or
      the `KeyError` of a line listing a candidate with an unpaired item. */
  method ComputeExactUtils(cands: set<seq<Item>>, db: seq<Txn>, minUtil: int) returns (r: Option<map<seq<Item>, int>>)
    ensures r.None? <==> Raises(cands, db)
    ensures r.Some? ==> forall X :: X in r.value <==> X in cands && Utility(X, db) >= minUtil
    ensures r.Some? ==> forall X :: X in r.value ==> r.value[X] == Utility(X, db)
  {
    var util := map X | X in cands :: 0;
    var tid := 0;
    while tid < |db|
      invariant 0 <= tid <= |db|
      invariant !Raises(cands, db[..tid])
      invariant forall X :: X in util <==> X in cands
      invariant forall X :: X in util ==> util[X] == Utility(X, db[..tid])
    {
      var step := AddUtility(util, cands, db[tid]);
      RaisesSnoc(cands, db, tid);
      if step.None? {
        var X :| X in cands && Unpaired(db[tid], X);
        assert Unpaired(db[tid], X);
        return None;
      }
      util := step.value;
      assert db[..tid + 1][..tid] == db[..tid];
      tid := tid + 1;
    }
    assert db[..tid] == db;
    r := Some(map X | X in util && util[X] >= minUtil :: util[X]);
  }

  // ---------------------------------------------------------------------
  // Levels

  /** The itemsets a level keeps on well-formed transactions: a non-empty
      increasing tuple that occurs and whose TWU reaches the threshold. */
  ghost predicate Frequent(X: seq<Item>, db: seq<Txn>, minUtil: int) {
    |X| > 0 && Increasing(X) && Occurs(X, db) && TWU(X, db) >= minUtil
  }

  /** Every member of a level of length m is an increasing m-tuple of listed
      items. */
  ghost predicate Shaped(level: set<seq<Item>>, m: nat, db: seq<Txn>) {
    forall X :: X in level ==> |X| == m && Increasing(X) && forall x :: x in X ==> x in ListedItems(db)
  }

  /** X without its j-th item. */
  function Drop(X: seq<Item>, j: nat): seq<Item>
    requires j < |X|
  {
    X[..j] + X[j + 1..]
  }

  lemma DropProps(X: seq<Item>, j: nat)
    requires Increasing(X) && j < |X|
    ensures |Drop(X, j)| == |X| - 1 && Increasing(Drop(X, j))
    ensures forall y :: y in Drop(X, j) ==> y in X
    ensures forall i :: 0 <= i < |X| && i != j ==> X[i] in Drop(X, j)
  {
    var d := Drop(X, j);
    forall a, b | 0 <= a < b < |d| ensures d[a] < d[b] {
      var a', b' := if a < j then a else a + 1, if b < j then b else b + 1;
      assert d[a] == X[a'] && d[b] == X[b'];
    }
    forall i | 0 <= i < |X| && i != j ensures X[i] in d {
      if i < j {
        assert d[i] == X[i];
      } else {
        assert d[i - 1] == X[i];
      }
    }
  }

  /** On well-formed transactions, a level holding exactly the frequent
      (k - 1)-tuples is followed by one holding exactly the frequent
      k-tuples: each (k - 1)-combination of a frequent tuple is frequent (TWU
      is anti-monotone), and each of its items lies in one of them. */
  lemma NextLevel(db: seq<Txn>, minUtil: int, prev: set<seq<Item>>, k: nat, next: set<seq<Item>>)
    requires WellFormedDb(db) && k >= 2
    requires forall X :: X in prev <==> Frequent(X, db, minUtil) && |X| == k - 1
    requires forall X :: X in next <==>
      X in GenerateCandidates(prev, k) && Supported(X, db) && ListedTwu(X, db) >= minUtil
    ensures forall X :: X in next <==> Frequent(X, db, minUtil) && |X| == k
  {
    WellFormedTotals(db);
    assert Listed(db);
    forall X ensures X in next <==> Frequent(X, db, minUtil) && |X| == k {
      ListedTwuIsTwu(X, db);
      if Frequent(X, db, minUtil) && |X| == k {
        forall Y | |Y| == k - 1 && Increasing(Y) && (forall y :: y in Y ==> y in X) ensures Y in prev {
          OccursAntiMonotone(Y, X, db);
          TwuAntiMonotone(Y, X, db);
        }
        forall x | x in X ensures x in ItemsOf(prev) {
          var i :| 0 <= i < |X| && X[i] == x;
          var j := if i == 0 then 1 else 0;
          DropProps(X, j);
          var Y := Drop(X, j);
          OccursAntiMonotone(Y, X, db);
          TwuAntiMonotone(Y, X, db);
          assert Y in prev;
        }
      }
    }
  }

  /** On well-formed transactions, the frequent single-item tuples are those
      of the items whose occurrence TWU reaches the threshold. */
  lemma FirstLevel(db: seq<Txn>, minUtil: int, twu: map<Item, int>, freq: set<seq<Item>>)
    requires WellFormedDb(db)
    requires forall x :: x in twu <==> x in ListedItems(db)
    requires forall x :: x in twu ==> twu[x] == OccurrenceTwu(x, db)
    requires forall X :: X in freq <==> |X| == 1 && X[0] in twu && twu[X[0]] >= minUtil
    ensures forall X :: X in freq <==> Frequent(X, db, minUtil) && |X| == 1
  {
    forall X ensures X in freq <==> Frequent(X, db, minUtil) && |X| == 1 {
      if |X| == 1 {
        var x := X[0];
        Singleton(X);
        OccurrenceTwuIsTwu(x, db);
        assert x in ListedItems(db) <==> Occurs(X, db) by {
          if x in ListedItems(db) {
            var k, y :| 0 <= k < |db| && y in db[k].items && y == x;
            assert WellFormed(db[k]);
            assert Contains(db[k], X);
          }
          if Occurs(X, db) {
            var k :| 0 <= k < |db| && Contains(db[k], X);
            assert WellFormed(db[k]);
            assert x in X;
          }
        }
      }
    }
  }

  /** With nonnegative totals, when no tuple of length m is frequent, none is
      longer either. */
  lemma NoneLonger(db: seq<Txn>, minUtil: int, m: nat)
    requires TotalsNonneg(db) && m > 0
    requires forall X :: !(Frequent(X, db, minUtil) && |X| == m)
    ensures forall X :: Frequent(X, db, minUtil) ==> |X| < m
  {
    forall X | Frequent(X, db, minUtil) ensures |X| < m {
      if |X| >= m {
        var Y := X[..m];
        OccursAntiMonotone(Y, X, db);
        TwuAntiMonotone(Y, X, db);
        assert false;
      }
    }
  }

  /** What holds of the candidates before level k is built. */
  ghost predicate Candidates(db: seq<Txn>, minUtil: int, k: nat, prev: set<seq<Item>>, all: set<seq<Item>>) {
    && k >= 2 && Shaped(prev, k - 1, db) && prev <= all
    && (forall X :: X in all ==> 0 < |X| < k && Increasing(X))
    && (WellFormedDb(db) ==> forall X :: X in prev <==> Frequent(X, db, minUtil) && |X| == k - 1)
    && (WellFormedDb(db) ==> forall X :: Frequent(X, db, minUtil) && |X| < k ==> X in all)
    && (WellFormedDb(db) ==> forall X :: X in all ==> Frequent(X, db, minUtil))
  }

  /** One more level: the filtered candidates of length k keep the loop's
      facts at k + 1. */
  lemma LevelStep(db: seq<Txn>, minUtil: int, k: nat, prev: set<seq<Item>>, all: set<seq<Item>>, next: set<seq<Item>>)
    requires Candidates(db, minUtil, k, prev, all)
    requires forall X :: X in next <==>
      X in GenerateCandidates(prev, k) && Supported(X, db) && ListedTwu(X, db) >= minUtil
    ensures Candidates(db, minUtil, k + 1, next, all + next)
  {
    forall X | X in next ensures |X| == k && Increasing(X) && forall x :: x in X ==> x in ListedItems(db) {
      forall x | x in X ensures x in ListedItems(db) {
        assert x in ItemsOf(prev);
        var S, i :| S in prev && i in S && i == x;
      }
    }
    if WellFormedDb(db) {
      NextLevel(db, minUtil, prev, k, next);
    }
  }

  /** The 1-itemsets whose TWU reaches the threshold start the loop at
      k = 2. */
  lemma FirstCandidates(db: seq<Txn>, minUtil: int, twu: map<Item, int>, freq: set<seq<Item>>)
    requires forall x :: x in twu <==> x in ListedItems(db)
    requires forall x :: x in twu ==> twu[x] == OccurrenceTwu(x, db)
    requires freq == set x | x in twu && twu[x] >= minUtil :: [x]
    ensures Candidates(db, minUtil, 2, freq, freq)
  {
    assert forall X :: X in freq <==> |X| == 1 && X[0] in twu && twu[X[0]] >= minUtil by {
      forall X ensures X in freq <==> |X| == 1 && X[0] in twu && twu[X[0]] >= minUtil {
        if X in freq {
          var x :| x in twu && twu[x] >= minUtil && X == [x];
        }
        if |X| == 1 && X[0] in twu && twu[X[0]] >= minUtil {
          var x := X[0];
          Singleton(X);
          assert [x] in freq;
        }
      }
    }
    if WellFormedDb(db) {
      FirstLevel(db, minUtil, twu, freq);
    }
  }

  /** With the loop finished at k, on well-formed transactions the
      candidates are exactly the frequent itemsets. */
  lemma CandidatesExact(db: seq<Txn>, minUtil: int, k: nat, all: set<seq<Item>>)
    requires Candidates(db, minUtil, k, {}, all)
    ensures WellFormedDb(db) ==> forall X :: X in all <==> Frequent(X, db, minUtil)
  {
    if WellFormedDb(db) {
      WellFormedTotals(db);
      NoneLonger(db, minUtil, k - 1);
    }
  }

  /** With the loop finished at k, the exact phase reports every
      high-utility candidate, and every high-utility itemset is a candidate. */
  lemma ReportHuis(db: seq<Txn>, minUtil: int, k: nat, all: set<seq<Item>>, huis: map<seq<Item>, int>)
    requires Candidates(db, minUtil, k, {}, all)
    requires forall X :: X in huis <==> X in all && Utility(X, db) >= minUtil
    requires forall X :: X in huis ==> huis[X] == Utility(X, db)
    ensures forall X :: X in huis ==> |X| > 0 && Increasing(X) && huis[X] == Utility(X, db) && huis[X] >= minUtil
    ensures WellFormedDb(db) ==>
      forall X :: |X| > 0 && Increasing(X) && Occurs(X, db) && Utility(X, db) >= minUtil ==> X in huis
  {
    if WellFormedDb(db) {
      WellFormedTotals(db);
      NoneLonger(db, minUtil, k - 1);
    }
    forall X | WellFormedDb(db) && |X| > 0 && Increasing(X) && Occurs(X, db) && Utility(X, db) >= minUtil
      ensures X in huis
    {
      IncreasingDistinct(X);
      UtilityAtMostTwu(X, db);
    }
  }

  // ---------------------------------------------------------------------
  // The candidate set as a function of the input

  /** `filter_by_twu` as a value: the candidates some line lists whose TWU
      reaches the threshold. */
  function Filtered(cands: set<seq<Item>>, db: seq<Txn>, minUtil: int): set<seq<Item>> {
    set X | X in cands && Supported(X, db) && ListedTwu(X, db) >= minUtil
  }

  /** The first level, `freq`: the single-item tuples of the listed items
      whose occurrence TWU reaches the threshold. */
  function FirstFreq(db: seq<Txn>, minUtil: int): set<seq<Item>> {
    set x | x in ListedItems(db) && OccurrenceTwu(x, db) >= minUtil :: [x]
  }

  /** The filtered candidates built from a level of (k - 1)-tuples of listed
      items are k-tuples of listed items. */
  lemma FilteredShaped(db: seq<Txn>, minUtil: int, prev: set<seq<Item>>, k: nat)
    requires k >= 2 && Shaped(prev, k - 1, db)
    ensures Shaped(Filtered(GenerateCandidates(prev, k), db, minUtil), k, db)
  {
    forall X, x | X in Filtered(GenerateCandidates(prev, k), db, minUtil) && x in X ensures x in ListedItems(db) {
      assert x in ItemsOf(prev);
      var S, i :| S in prev && i in S && i == x;
    }
  }

  /** The level after prev: `filter_by_twu(generate_candidates(prev, k))`
      (experiments/two_phase.py:63-64). */
  function NextOf(db: seq<Txn>, minUtil: int, prev: set<seq<Item>>, k: nat): set<seq<Item>>
    requires k >= 1
  {
    Filtered(GenerateCandidates(prev, k), db, minUtil)
  }

  /** A nonempty level of (k - 1)-tuples of listed items has k - 1 at most
      the number of listed items. */
  lemma LevelBound(db: seq<Txn>, prev: set<seq<Item>>, k: nat)
    requires k >= 2 && Shaped(prev, k - 1, db) && prev != {}
    ensures k <= |ListedItems(db)| + 1
  {
    var p :| p in prev;
    LengthBound(p, ListedItems(db));
  }

  /** The levels the loop of experiments/two_phase.py:62-66 adds, starting
      from level prev at length k - 1, until one is empty. */
  ghost function LevelsFrom(db: seq<Txn>, minUtil: int, prev: set<seq<Item>>, k: nat): set<seq<Item>>
    requires k >= 2 && Shaped(prev, k - 1, db)
    decreases |ListedItems(db)| + 1 - k
  {
    if prev == {} then {}
    else
      LevelBound(db, prev, k);
      FilteredShaped(db, minUtil, prev, k);
      NextOf(db, minUtil, prev, k) + LevelsFrom(db, minUtil, NextOf(db, minUtil, prev, k), k + 1)
  }

  /** A non-empty level is followed by its filtered candidates and the levels
      after them. */
  lemma LevelsUnfold(db: seq<Txn>, minUtil: int, prev: set<seq<Item>>, k: nat)
    requires k >= 2 && Shaped(prev, k - 1, db) && prev != {}
    ensures forall X :: X in NextOf(db, minUtil, prev, k) <==>
      X in GenerateCandidates(prev, k) && Supported(X, db) && ListedTwu(X, db) >= minUtil
    ensures Shaped(NextOf(db, minUtil, prev, k), k, db)
    ensures LevelsFrom(db, minUtil, prev, k) ==
      NextOf(db, minUtil, prev, k) + LevelsFrom(db, minUtil, NextOf(db, minUtil, prev, k), k + 1)
  {
    FilteredShaped(db, minUtil, prev, k);
  }

  /** The single-item tuples the method builds from its TWU table are the
      first level. */
  lemma FirstFreqIs(db: seq<Txn>, minUtil: int, twu: map<Item, int>, freq: set<seq<Item>>)
    requires forall x :: x in twu <==> x in ListedItems(db)
    requires forall x :: x in twu ==> twu[x] == OccurrenceTwu(x, db)
    requires freq == set x | x in twu && twu[x] >= minUtil :: [x]
    ensures freq == FirstFreq(db, minUtil)
  {
  }

  /** `all_cands` (experiments/two_phase.py:57-64): the first level and every
      later one. */
  ghost function AllCandidates(db: seq<Txn>, minUtil: int): set<seq<Item>> {
    FirstFreqShaped(db, minUtil);
    FirstFreq(db, minUtil) + LevelsFrom(db, minUtil, FirstFreq(db, minUtil), 2)
  }

  lemma FirstFreqShaped(db: seq<Txn>, minUtil: int)
    ensures Shaped(FirstFreq(db, minUtil), 1, db)
  {
    forall X | X in FirstFreq(db, minUtil) ensures |X| == 1 && Increasing(X) && forall x :: x in X ==> x in ListedItems(db) {
      var x :| x in ListedItems(db) && OccurrenceTwu(x, db) >= minUtil && X == [x];
    }
  }

  /** The candidates gathered so far and the levels still to come make up
      the whole candidate set. */
  ghost predicate Gathered(db: seq<Txn>, minUtil: int, prev: set<seq<Item>>, k: nat, all: set<seq<Item>>) {
    k >= 2 && Shaped(prev, k - 1, db) && all + LevelsFrom(db, minUtil, prev, k) == AllCandidates(db, minUtil)
  }

  lemma GatheredFirst(db: seq<Txn>, minUtil: int, twu: map<Item, int>, freq: set<seq<Item>>)
    requires forall x :: x in twu <==> x in ListedItems(db)
    requires forall x :: x in twu ==> twu[x] == OccurrenceTwu(x, db)
    requires freq == set x | x in twu && twu[x] >= minUtil :: [x]
    ensures Gathered(db, minUtil, freq, 2, freq)
  {
    FirstFreqIs(db, minUtil, twu, freq);
    FirstFreqShaped(db, minUtil);
  }

  lemma GatheredStep(db: seq<Txn>, minUtil: int, prev: set<seq<Item>>, k: nat, all: set<seq<Item>>, next: set<seq<Item>>)
    requires Gathered(db, minUtil, prev, k, all) && prev != {}
    requires forall X :: X in next <==> X in GenerateCandidates(prev, k) && Supported(X, db) && ListedTwu(X, db) >= minUtil
    ensures Gathered(db, minUtil, next, k + 1, all + next)
  {
    LevelsUnfold(db, minUtil, prev, k);
    assert next == NextOf(db, minUtil, prev, k);
  }

  lemma GatheredLast(db: seq<Txn>, minUtil: int, k: nat, all: set<seq<Item>>)
    requires Gathered(db, minUtil, {}, k, all)
    ensures all == AllCandidates(db, minUtil)
  {
  }

  /** Phase 1 of `get_high_utility_itemsets` (experiments/two_phase.py:56-64):
      the loop builds exactly the candidate set `AllCandidates`, and ends at
      a length k with an empty level. */
  method CandidatePhase(db: seq<Txn>, minUtil: int) returns (all: set<seq<Item>>, k: nat)
    ensures all == AllCandidates(db, minUtil)
    ensures Candidates(db, minUtil, k, {}, all)
    ensures WellFormedDb(db) ==> forall X :: X in all <==> Frequent(X, db, minUtil)
  {
    var twu := OccurrenceTwus(db);
    var freq := set x | x in twu && twu[x] >= minUtil :: [x];
    FirstCandidates(db, minUtil, twu, freq);
    GatheredFirst(db, minUtil, twu, freq);
    all := freq;
    k := 2;
    var prev := freq;
    while prev != {}
      invariant Candidates(db, minUtil, k, prev, all)
      invariant Gathered(db, minUtil, prev, k, all)
      decreases |ListedItems(db)| + 1 - k
    {
      var p :| p in prev;
      LengthBound(p, ListedItems(db));
      var cands := GenerateCandidates(prev, k);
      var next := FilterByTwu(cands, db, minUtil);
      GatheredStep(db, minUtil, prev, k, all, next);
      LevelStep(db, minUtil, k, prev, all, next);
      prev := next;
      all := all + prev;
      k := k + 1;
    }
    GatheredLast(db, minUtil, k, all);
    CandidatesExact(db, minUtil, k, all);
  }

  /** `get_high_utility_itemsets` after parsing (experiments/two_phase.py:56-71).
      `all` is the candidate set of phase 1, `AllCandidates`: the run fails
      exactly when a line lists a candidate with an unpaired item, never when
      every listed item is paired. Otherwise every reported itemset is a
      non-empty increasing tuple mapped to its exact utility, which reaches
      the threshold, and on well-formed transactions every high-utility
      increasing tuple that occurs is reported. */
  method HighUtilityItemsets(db: seq<Txn>, minUtil: int) returns (huis: Option<map<seq<Item>, int>>, ghost all: set<seq<Item>>)
    ensures all == AllCandidates(db, minUtil)
    ensures WellFormedDb(db) ==> forall X :: X in all <==> Frequent(X, db, minUtil)
    ensures forall X :: X in all ==> |X| > 0 && Increasing(X)
    ensures huis.None? <==> Raises(all, db)
    ensures Listed(db) ==> huis.Some?
    ensures huis.Some? ==> forall X :: X in huis.value ==>
      |X| > 0 && Increasing(X) && huis.value[X] == Utility(X, db) && huis.value[X] >= minUtil
    ensures huis.Some? && WellFormedDb(db) ==>
      forall X :: |X| > 0 && Increasing(X) && Occurs(X, db) && Utility(X, db) >= minUtil ==> X in huis.value
  {
    var cands, k := CandidatePhase(db, minUtil);
    all := cands;
    huis := ComputeExactUtils(cands, db, minUtil);
    if Listed(db) {
      ListedNeverRaises(all, db);
    }
    if huis.Some? {
      ReportHuis(db, minUtil, k, all, huis.value);
    }
  }
}
