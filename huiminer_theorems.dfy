/** The three promises of `huiminer_one_phase_from_parsed` (hui.py) stated
    on the database: every emitted pair is an itemset that occurs, listed in
    the global order, with its exact utility at or above the threshold; every
    such itemset is emitted; and no itemset is emitted twice. */
module HuiMinerTheorems {
  import opened Db
  import opened Ordering
  import opened UtilityLists
  import opened HuiMiner
  import opened HuiMinerProofs

  // ---------------------------------------------------------------------
  // No itemset twice

  predicate NoDupKeys(s: seq<Found>) {
    forall i, j :: 0 <= i < j < |s| ==> s[i].0 != s[j].0
  }

  /** Two duplicate-free runs whose itemsets a measure separates concatenate
      into a duplicate-free run. */
  lemma NoDupConcat(a: seq<Found>, b: seq<Found>, f: seq<Item> -> int, k: int)
    requires NoDupKeys(a) && NoDupKeys(b)
    requires forall e :: e in a ==> f(e.0) < k
    requires forall e :: e in b ==> f(e.0) >= k
    ensures NoDupKeys(a + b)
  {
    var s := a + b;
    forall i, j | 0 <= i < j < |s| ensures s[i].0 != s[j].0 {
      if j < |a| {
        assert s[i] == a[i] && s[j] == a[j];
      } else if i >= |a| {
        assert s[i] == b[i - |a|] && s[j] == b[j - |a|];
      } else {
        assert s[i] == a[i] && a[i] in a;
        assert s[j] == b[j - |a|] && b[j - |a|] in b;
      }
    }
  }

  /** e's itemset extends prefix by an item of rank at least from. */
  predicate Extends(c: Ctx, prefix: seq<Item>, e: Found, from: int) {
    |e.0| > |prefix| && e.0[..|prefix|] == prefix && Rank(c.ord, e.0[|prefix|]) >= from
  }

  /** A search call emits its prefix or extensions of it by items from its
      start on, each itemset once. */
  lemma {:induction false} SearchKeys(c: Ctx, prefix: seq<Item>, ul: seq<Entry>, start: nat)
    requires Indexed(c) && start <= |c.P|
    ensures NoDupKeys(SearchSpec(c, prefix, ul, start))
    ensures forall e :: e in SearchSpec(c, prefix, ul, start) ==> e.0 == prefix || Extends(c, prefix, e, start)
    decreases |c.P| - start, 2
  {
    var total := SumIu(ul);
    var here := if |prefix| > 0 && total >= c.minUtil then [(prefix, total)] else [];
    if SumIuRu(ul) >= c.minUtil {
      ExtendKeys(c, prefix, ul, start);
      NoDupConcat(here, Extend(c, prefix, ul, start), s => |s|, |prefix| + 1);
      SearchUnfold(c, prefix, ul, start);
    } else {
      SearchPruned(c, prefix, ul, start);
    }
  }

  lemma {:induction false} ExtendKeys(c: Ctx, prefix: seq<Item>, ul: seq<Entry>, idx: nat)
    requires Indexed(c) && idx <= |c.P|
    ensures NoDupKeys(Extend(c, prefix, ul, idx))
    ensures forall e :: e in Extend(c, prefix, ul, idx) ==> Extends(c, prefix, e, idx)
    decreases |c.P| - idx, 1
  {
    if idx < |c.P| {
      var n := |prefix|;
      var br, ext := Branch(c, prefix, ul, idx), Extend(c, prefix, ul, idx + 1);
      BranchKeys(c, prefix, ul, idx);
      ExtendKeys(c, prefix, ul, idx + 1);
      assert Rank(c.ord, c.P[idx]) == idx;
      NoDupConcat(br, ext, s => if |s| > n then Rank(c.ord, s[n]) else -1, idx + 1);
      ExtendUnfold(c, prefix, ul, idx);
    }
  }

  lemma {:induction false} BranchKeys(c: Ctx, prefix: seq<Item>, ul: seq<Entry>, idx: nat)
    requires Indexed(c) && idx < |c.P|
    ensures NoDupKeys(Branch(c, prefix, ul, idx))
    ensures forall e :: e in Branch(c, prefix, ul, idx) ==>
      |e.0| > |prefix| && e.0[..|prefix|] == prefix && e.0[|prefix|] == c.P[idx]
    decreases |c.P| - idx, 0
  {
    var y := c.P[idx];
    var ulItem := ListOf(c.lists, y);
    if ulItem != [] {
      var nu := Join(ul, ulItem);
      if nu != [] {
        var p2 := prefix + [y];
        SearchKeys(c, p2, nu, idx + 1);
        BranchUnfold(c, prefix, ul, idx);
        forall e | e in SearchSpec(c, p2, nu, idx + 1)
          ensures |e.0| > |prefix| && e.0[..|prefix|] == prefix && e.0[|prefix|] == y
        {
          PrefixOfPrefix(e.0, prefix, y);
        }
      }
    }
  }

  lemma TopBranchKeys(c: Ctx, idx: nat)
    requires Indexed(c) && idx < |c.P|
    ensures NoDupKeys(TopBranch(c, idx))
    ensures forall e :: e in TopBranch(c, idx) ==> |e.0| > 0 && e.0[0] == c.P[idx] && Rank(c.ord, e.0[0]) == idx
  {
    var y := c.P[idx];
    assert Rank(c.ord, y) == idx;
    var ulItem := ListOf(c.lists, y);
    if ulItem != [] && SumIuRu(ulItem) >= c.minUtil {
      SearchKeys(c, [y], ulItem, idx + 1);
      TopBranchUnfold(c, idx);
      forall e | e in SearchSpec(c, [y], ulItem, idx + 1) ensures |e.0| > 0 && e.0[0] == y {
        PrefixOfPrefix(e.0, [], y);
      }
    }
  }

  /** Itemsets that start below rank m, followed by ones that start at rank
      m: no key twice, and all start below rank m + 1. */
  lemma FirstRankConcat(ord: map<Item, nat>, a: seq<Found>, b: seq<Found>, m: int)
    requires NoDupKeys(a) && NoDupKeys(b)
    requires forall e :: e in a ==> |e.0| > 0 && Rank(ord, e.0[0]) < m
    requires forall e :: e in b ==> |e.0| > 0 && Rank(ord, e.0[0]) == m
    ensures NoDupKeys(a + b)
    ensures forall e :: e in a + b ==> |e.0| > 0 && Rank(ord, e.0[0]) < m + 1
  {
    NoDupConcat(a, b, s => if |s| > 0 then Rank(ord, s[0]) else -1, m);
  }

  /** The top-level loop emits each itemset once, the first n iterations
      only itemsets whose first item is among the first n. */
  lemma {:induction false} TopKeys(c: Ctx, n: nat)
    requires Indexed(c) && n <= |c.P|
    ensures NoDupKeys(TopSpec(c, n))
    ensures forall e :: e in TopSpec(c, n) ==> |e.0| > 0 && Rank(c.ord, e.0[0]) < n
  {
    if n > 0 {
      var front, last := TopSpec(c, n - 1), TopBranch(c, n - 1);
      TopKeys(c, n - 1);
      TopBranchKeys(c, n - 1);
      FirstRankConcat(c.ord, front, last, n - 1);
      TopUnfold(c, n);
    }
  }

  // ---------------------------------------------------------------------
  // Every qualifying ranked itemset is emitted

  /** The tail of a ranked itemset: no repeats, and ranks above the first. */
  lemma RankedRest(ord: map<Item, nat>, prefix: seq<Item>, Z: seq<Item>)
    requires Ranked(ord, prefix + Z) && |Z| > 0
    ensures Distinct(Z)
    ensures forall z :: z in Z[1..] ==> Rank(ord, z) > Rank(ord, Z[0])
  {
    var X := prefix + Z;
    var n := |prefix|;
    forall i, j | 0 <= i < j < |Z| ensures Z[i] != Z[j] {
      assert Z[i] == X[n + i] && Z[j] == X[n + j];
    }
    forall z | z in Z[1..] ensures Rank(ord, z) > Rank(ord, Z[0]) {
      var i :| 0 <= i < |Z[1..]| && Z[1..][i] == z;
      assert z == X[n + 1 + i] && Z[0] == X[n];
    }
  }

  /** In a transaction in rank order, the items of Z, all ranked at least
      start, lie after the last item of a prefix ranked below start. */
  lemma AfterHolds(c: Ctx, rt: RevTxn, prefix: seq<Item>, Z: seq<Item>, start: int)
    requires Shaped(c.ord, rt) && |prefix| > 0 && ContainsR(rt, prefix + Z)
    requires Below(c.ord, prefix, start)
    requires forall z :: z in Z ==> Rank(c.ord, z) >= start
    ensures After(rt, prefix, Z)
  {
    var last := prefix[|prefix| - 1];
    assert last in prefix && last in prefix + Z;
    var p := IndexOf(rt.items, last);
    forall k | 0 <= k <= p ensures rt.items[k] !in Z {
      assert Rank(c.ord, rt.items[k]) <= Rank(c.ord, rt.items[p]);
    }
  }

  /** The pruning bound never discards an extension by Z. */
  lemma BoundHolds(c: Ctx, rev: seq<RevTxn>, prefix: seq<Item>, Z: seq<Item>, start: int)
    requires Good(c, rev) && AllProper(rev) && |prefix| > 0 && Distinct(Z)
    requires Below(c.ord, prefix, start)
    requires forall z :: z in Z ==> Rank(c.ord, z) >= start
    ensures SumIu(ListFor(rev, prefix + Z)) <= SumIuRu(ListFor(rev, prefix))
  {
    forall k | 0 <= k < |rev| && ContainsR(rev[k], prefix + Z) ensures After(rev[k], prefix, Z) {
      AfterHolds(c, rev[k], prefix, Z, start);
    }
    ListBound(rev, prefix, Z);
  }

  lemma SnocSplit(prefix: seq<Item>, Z: seq<Item>)
    requires |Z| > 0
    ensures (prefix + [Z[0]]) + Z[1..] == prefix + Z
  {
  }

  lemma {:induction false} ExtendContains(c: Ctx, prefix: seq<Item>, ul: seq<Entry>, from: nat, idx: nat, e: Found)
    requires from <= idx < |c.P| && e in Branch(c, prefix, ul, idx)
    ensures e in Extend(c, prefix, ul, from)
    decreases idx - from
  {
    ExtendUnfold(c, prefix, ul, from);
    if from < idx {
      ExtendContains(c, prefix, ul, from + 1, idx, e);
    }
  }

  lemma {:induction false} TopContains(c: Ctx, idx: nat, n: nat, e: Found)
    requires idx < n <= |c.P| && e in TopBranch(c, idx)
    ensures e in TopSpec(c, n)
    decreases n
  {
    if idx < n - 1 {
      TopContains(c, idx, n - 1, e);
      TopGrows(c, n, e);
    } else {
      TopGains(c, n, e);
    }
  }

  /** What the first n - 1 iterations collect stays collected. */
  lemma TopGrows(c: Ctx, n: nat, e: Found)
    requires 0 < n <= |c.P| && e in TopSpec(c, n - 1)
    ensures e in TopSpec(c, n)
  {
    TopUnfold(c, n);
  }

  /** What iteration n - 1 emits is collected. */
  lemma TopGains(c: Ctx, n: nat, e: Found)
    requires 0 < n <= |c.P| && e in TopBranch(c, n - 1)
    ensures e in TopSpec(c, n)
  {
    TopUnfold(c, n);
  }

  /** A search call `search(prefix, ul, start)` that X = prefix + Z is still
      to be found by: Z's items come at or after start, and X is a ranked
      itemset that occurs, with utility at or above the threshold. */
  ghost predicate Pending(c: Ctx, rev: seq<RevTxn>, prefix: seq<Item>, ul: seq<Entry>, start: nat, Z: seq<Item>, X: seq<Item>) {
    && Good(c, rev) && AllProper(rev) && Node(c, rev, prefix, ul, start)
    && X == prefix + Z && Ranked(c.ord, X)
    && (forall z :: z in Z ==> Rank(c.ord, z) >= start)
    && ListFor(rev, X) != [] && SumIu(ListFor(rev, X)) >= c.minUtil
  }

  /** A search call emits every ranked extension of its prefix by items at
      or after its start whose list is nonempty with utility at or above
      the threshold. */
  lemma {:induction false} SearchComplete(c: Ctx, rev: seq<RevTxn>, prefix: seq<Item>, ul: seq<Entry>, start: nat, Z: seq<Item>, X: seq<Item>)
    requires Pending(c, rev, prefix, ul, start, Z, X)
    ensures (X, SumIu(ListFor(rev, X))) in SearchSpec(c, prefix, ul, start)
    decreases |Z|
  {
    var e := (X, SumIu(ListFor(rev, X)));
    if |Z| == 0 {
      assert X == prefix;
      SearchHere(c, prefix, ul, start);
    } else {
      var y := Z[0];
      var idx := Rank(c.ord, y);
      CompleteStep(c, rev, prefix, ul, start, Z, X);
      var nu := Join(ul, ListOf(c.lists, y));
      SearchComplete(c, rev, prefix + [y], nu, idx + 1, Z[1..], X);
      BranchUnfold(c, prefix, ul, idx);
      ExtendContains(c, prefix, ul, start, idx, e);
      SearchUnfold(c, prefix, ul, start);
    }
  }

  /** The facts one extension step of the completeness proof needs. */
  lemma CompleteStep(c: Ctx, rev: seq<RevTxn>, prefix: seq<Item>, ul: seq<Entry>, start: nat, Z: seq<Item>, X: seq<Item>)
    requires Pending(c, rev, prefix, ul, start, Z, X) && |Z| > 0
    ensures SumIuRu(ul) >= c.minUtil
    ensures start <= Rank(c.ord, Z[0]) < |c.P| && c.P[Rank(c.ord, Z[0])] == Z[0]
    ensures ListOf(c.lists, Z[0]) != [] && Join(ul, ListOf(c.lists, Z[0])) != []
    ensures Pending(c, rev, prefix + [Z[0]], Join(ul, ListOf(c.lists, Z[0])), Rank(c.ord, Z[0]) + 1, Z[1..], X)
  {
    RankedRest(c.ord, prefix, Z);
    BoundHolds(c, rev, prefix, Z, start);
    var y := Z[0];
    assert y in X;
    var idx := Rank(c.ord, y);
    assert idx < |c.P| && c.P[idx] == y;
    ListForSub(rev, [y], X);
    assert ListAgrees(c, rev, y);
    JoinListFor(rev, prefix, y);
    ListForSub(rev, prefix + [y], X);
    RankedSnoc(c, prefix, idx);
    SnocSplit(prefix, Z);
  }

  /** The facts the first step of the completeness proof needs. */
  lemma TopStep(c: Ctx, rev: seq<RevTxn>, X: seq<Item>)
    requires Good(c, rev) && AllProper(rev) && |X| > 0 && Ranked(c.ord, X)
    requires ListFor(rev, X) != [] && SumIu(ListFor(rev, X)) >= c.minUtil
    ensures Rank(c.ord, X[0]) < |c.P| && c.P[Rank(c.ord, X[0])] == X[0]
    ensures ListOf(c.lists, X[0]) != [] && SumIuRu(ListOf(c.lists, X[0])) >= c.minUtil
    ensures Pending(c, rev, [X[0]], ListOf(c.lists, X[0]), Rank(c.ord, X[0]) + 1, X[1..], X)
  {
    var y := X[0];
    assert y in X;
    var idx := Rank(c.ord, y);
    assert idx < |c.P| && c.P[idx] == y;
    var Z := X[1..];
    assert [y] + Z == X && [] + X == X;
    RankedRest(c.ord, [], X);
    ListForSub(rev, [y], X);
    assert ListAgrees(c, rev, y);
    DistinctTail(X);
    assert Below(c.ord, [y], idx + 1);
    BoundHolds(c, rev, [y], Z, idx + 1);
    StartPending(c, rev, X);
  }

  /** The first search call, from X's first item, has X still to find. */
  lemma StartPending(c: Ctx, rev: seq<RevTxn>, X: seq<Item>)
    requires Good(c, rev) && AllProper(rev) && |X| > 0 && Ranked(c.ord, X)
    requires ListFor(rev, X) != [] && SumIu(ListFor(rev, X)) >= c.minUtil
    requires Rank(c.ord, X[0]) < |c.P|
    requires ListOf(c.lists, X[0]) == ListFor(rev, [X[0]]) && ListOf(c.lists, X[0]) != []
    requires forall z :: z in X[1..] ==> Rank(c.ord, z) > Rank(c.ord, X[0])
    ensures Pending(c, rev, [X[0]], ListOf(c.lists, X[0]), Rank(c.ord, X[0]) + 1, X[1..], X)
  {
    assert [X[0]] + X[1..] == X;
    assert Below(c.ord, [X[0]], Rank(c.ord, X[0]) + 1);
  }

  /** The search started from X's first item emits X. */
  lemma TopBranchComplete(c: Ctx, rev: seq<RevTxn>, X: seq<Item>)
    requires Good(c, rev) && AllProper(rev) && |X| > 0 && Ranked(c.ord, X)
    requires ListFor(rev, X) != [] && SumIu(ListFor(rev, X)) >= c.minUtil
    ensures Rank(c.ord, X[0]) < |c.P|
    ensures (X, SumIu(ListFor(rev, X))) in TopBranch(c, Rank(c.ord, X[0]))
  {
    TopStep(c, rev, X);
    TopSearch(c, rev, X);
  }

  /** Once the first step's facts hold, the branch of X's first item emits X. */
  lemma TopSearch(c: Ctx, rev: seq<RevTxn>, X: seq<Item>)
    requires |X| > 0 && Rank(c.ord, X[0]) < |c.P| && c.P[Rank(c.ord, X[0])] == X[0]
    requires ListOf(c.lists, X[0]) != [] && SumIuRu(ListOf(c.lists, X[0])) >= c.minUtil
    requires Pending(c, rev, [X[0]], ListOf(c.lists, X[0]), Rank(c.ord, X[0]) + 1, X[1..], X)
    ensures (X, SumIu(ListFor(rev, X))) in TopBranch(c, Rank(c.ord, X[0]))
  {
    SearchComplete(c, rev, [X[0]], ListOf(c.lists, X[0]), Rank(c.ord, X[0]) + 1, X[1..], X);
    TopBranchUnfold(c, Rank(c.ord, X[0]));
  }

  /** The top-level loop emits every qualifying ranked itemset. */
  lemma TopComplete(c: Ctx, rev: seq<RevTxn>, X: seq<Item>)
    requires Good(c, rev) && AllProper(rev) && |X| > 0 && Ranked(c.ord, X)
    requires ListFor(rev, X) != [] && SumIu(ListFor(rev, X)) >= c.minUtil
    ensures (X, SumIu(ListFor(rev, X))) in TopSpec(c, |c.P|)
  {
    TopBranchComplete(c, rev, X);
    TopContains(c, Rank(c.ord, X[0]), |c.P|, (X, SumIu(ListFor(rev, X))));
  }

  // ---------------------------------------------------------------------
  // On the database

  /** The global order of step 2: descending TWU, ties by ascending item. */
  function GlobalKey(db: seq<Txn>): Item -> (int, int) {
    x => (-TWU([x], db), x)
  }

  /** X lists its items in the global order, each once. */
  predicate InTwuOrder(X: seq<Item>, db: seq<Txn>) {
    forall i, j :: 0 <= i < j < |X| ==> KeyLt(GlobalKey(db)(X[i]), GlobalKey(db)(X[j]))
  }

  /** The promising items: exactly the items that occur with TWU at or above
      the threshold, each once. */
  lemma PromisingMembers(db: seq<Txn>, minUtil: int)
    ensures Distinct(PromisingOrder(db, minUtil))
    ensures forall x :: x in PromisingOrder(db, minUtil) <==> Occurs([x], db) && TWU([x], db) >= minUtil
  {
    var twu := ItemTwu(db);
    var q := Promising(FirstSeen(db), twu, minUtil);
    var P := PromisingOrder(db, minUtil);
    if q != [] {
      assert P == SortBy(q, TwuKeyOf(twu));
      DistinctPerm(P, q);
      forall x ensures x in P <==> x in q {
        assert x in P <==> x in multiset(P);
        assert x in q <==> x in multiset(q);
      }
    }
  }

  /** The promising items are strictly in the global order. */
  lemma PromisingSorted(db: seq<Txn>, minUtil: int)
    ensures StrictlySortedBy(PromisingOrder(db, minUtil), GlobalKey(db))
  {
    var twu := ItemTwu(db);
    var q := Promising(FirstSeen(db), twu, minUtil);
    var P := PromisingOrder(db, minUtil);
    PromisingMembers(db, minUtil);
    if q != [] {
      var key := TwuKeyOf(twu);
      assert P == SortBy(q, key);
      forall i, j | 0 <= i < j < |P| ensures KeyLe(GlobalKey(db)(P[i]), GlobalKey(db)(P[j])) {
        assert KeyLe(key(P[i]), key(P[j]));
        assert P[i] in P && P[j] in P;
        assert P[i] in twu && P[j] in twu;
      }
      SortedDistinctKeysStrict(P, GlobalKey(db));
    }
  }

  /** For items of the promising order, ranked (increasing positions) and
      strictly increasing in the order's key say the same. */
  lemma RankedIsOrder(c: Ctx, key: Item -> (int, int), X: seq<Item>)
    requires Indexed(c) && StrictlySortedBy(c.P, key)
    requires forall x :: x in X ==> x in c.ord
    ensures Ranked(c.ord, X) <==> forall i, j :: 0 <= i < j < |X| ==> KeyLt(key(X[i]), key(X[j]))
  {
    forall i, j | 0 <= i < j < |X|
      ensures Rank(c.ord, X[i]) < Rank(c.ord, X[j]) <==> KeyLt(key(X[i]), key(X[j]))
    {
      var xi, xj := X[i], X[j];
      assert xi in X;
      assert xj in X;
      var ri, rj := c.ord[xi], c.ord[xj];
      assert c.P[ri] == xi && c.P[rj] == xj;
      if rj < ri {
        assert KeyLt(key(c.P[rj]), key(c.P[ri]));
      }
    }
  }

  /** The context's positions are those of the promising order. */
  lemma ContextIndexed(db: seq<Txn>, minUtil: int)
    ensures Indexed(ContextOf(db, minUtil, PromisingOrder(db, minUtil)))
  {
    var P := PromisingOrder(db, minUtil);
    PromisingMembers(db, minUtil);
    var c := ContextOf(db, minUtil, P);
    forall x | x in c.ord ensures c.ord[x] < |c.P| && c.P[c.ord[x]] == x {
      assert c.ord[x] == IndexOf(P, x);
    }
  }

  /** The revised database of the context, and its single-item lists. */
  lemma ContextRevised(db: seq<Txn>, minUtil: int, P: seq<Item>)
    requires SimpleDb(db)
    ensures RevisedOk(OrderIndex(P), Revise(db, OrderIndex(P)))
    ensures ListsExact(ContextOf(db, minUtil, P), Revise(db, OrderIndex(P)))
    ensures WellFormedDb(db) ==> AllProper(Revise(db, OrderIndex(P)))
  {
    var c := ContextOf(db, minUtil, P);
    var rev := Revise(db, c.ord);
    ReviseShape(db, c.ord);
    ReviseTids(db, c.ord);
    assert AllDistinct(rev) by {
      forall k | 0 <= k < |rev| ensures Distinct(rev[k].items) {
        assert Shaped(c.ord, rev[k]);
      }
    }
    ListsFaithful(rev);
    forall x ensures ListAgrees(c, rev, x) {
    }
    if WellFormedDb(db) {
      forall k | 0 <= k < |rev| ensures Proper(rev[k]) {
        assert Shaped(c.ord, rev[k]);
      }
    }
  }

  /** The search context built from the database satisfies what the search
      relies on. */
  lemma MineContext(db: seq<Txn>, minUtil: int)
    requires SimpleDb(db)
    ensures Good(ContextOf(db, minUtil, PromisingOrder(db, minUtil)),
                 Revise(db, OrderIndex(PromisingOrder(db, minUtil))))
    ensures WellFormedDb(db) ==> AllProper(Revise(db, OrderIndex(PromisingOrder(db, minUtil))))
  {
    ContextIndexed(db, minUtil);
    ContextRevised(db, minUtil, PromisingOrder(db, minUtil));
  }

  /** Every pair `huiminer_one_phase` returns is an itemset that occurs, in
      the global order, with its exact utility, at or above the threshold. */
  lemma MineSound(db: seq<Txn>, minUtil: int, e: Found)
    requires SimpleDb(db) && e in Mine(db, minUtil)
    ensures |e.0| > 0 && Distinct(e.0) && InTwuOrder(e.0, db)
    ensures Occurs(e.0, db) && e.1 == Utility(e.0, db) && e.1 >= minUtil
  {
    var P := PromisingOrder(db, minUtil);
    var c := ContextOf(db, minUtil, P);
    var rev := Revise(db, c.ord);
    MineContext(db, minUtil);
    PromisingSorted(db, minUtil);
    TopSound(c, rev);
    SoundOnDb(db, c, e);
  }

  /** A sound pair of the search, read on the database. */
  lemma SoundOnDb(db: seq<Txn>, c: Ctx, e: Found)
    requires SimpleDb(db) && Indexed(c) && StrictlySortedBy(c.P, GlobalKey(db))
    requires Sound(c, Revise(db, c.ord), e)
    ensures |e.0| > 0 && Distinct(e.0) && InTwuOrder(e.0, db)
    ensures Occurs(e.0, db) && e.1 == Utility(e.0, db) && e.1 >= c.minUtil
  {
    ReviseFaithful(db, c.ord, e.0);
    RankedIsOrder(c, GlobalKey(db), e.0);
    RankedDistinct(c.ord, e.0);
  }

  lemma RankedDistinct(ord: map<Item, nat>, X: seq<Item>)
    requires Ranked(ord, X)
    ensures Distinct(X)
  {
    forall i, j | 0 <= i < j < |X| ensures X[i] != X[j] {
      assert Rank(ord, X[i]) < Rank(ord, X[j]);
    }
  }

  /** Every itemset that occurs, listed in the global order, with utility at
      or above the threshold is returned, with its utility. */
  lemma MineComplete(db: seq<Txn>, minUtil: int, X: seq<Item>)
    requires WellFormedDb(db) && |X| > 0 && InTwuOrder(X, db)
    requires Occurs(X, db) && Utility(X, db) >= minUtil
    ensures (X, Utility(X, db)) in Mine(db, minUtil)
  {
    var P := PromisingOrder(db, minUtil);
    PromisingMembers(db, minUtil);
    PromisingSorted(db, minUtil);
    assert Distinct(X) by {
      forall i, j | 0 <= i < j < |X| ensures X[i] != X[j] {
        assert KeyLt(GlobalKey(db)(X[i]), GlobalKey(db)(X[j]));
      }
    }
    WellFormedTotals(db);
    UtilityAtMostTwu(X, db);
    forall x | x in X ensures x in P {
      OccursAntiMonotone([x], X, db);
      TwuAntiMonotone([x], X, db);
    }
    assert X[0] in P;
    forall k | 0 <= k < |db| ensures Simple(db[k]) {
      assert WellFormed(db[k]);
    }
    var c := ContextOf(db, minUtil, P);
    var rev := Revise(db, c.ord);
    MineContext(db, minUtil);
    RankedIsOrder(c, GlobalKey(db), X);
    ReviseFaithful(db, c.ord, X);
    TopComplete(c, rev, X);
  }

  /** `huiminer_one_phase` returns no itemset twice. */
  lemma MineNoDup(db: seq<Txn>, minUtil: int)
    ensures NoDupKeys(Mine(db, minUtil))
  {
    var P := PromisingOrder(db, minUtil);
    if P != [] {
      ContextIndexed(db, minUtil);
      TopKeys(ContextOf(db, minUtil, P), |P|);
    }
  }
}
