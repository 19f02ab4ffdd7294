/** The two-phase Apriori engine of ihup.py (`ihup_two_phase_from_parsed`):
    per-item tid-sets, a level-wise join that carries the tid-set of every
    candidate and keeps those whose TWU over it reaches the threshold, and a
    second phase that sums each candidate's exact utility over its tid-set. */
module IhupApriori {
  import opened Db
  import opened Ordering
  import opened Apriori

  /** The tid-set of every item (ihup.py:64-67), with the items in the order
      the dictionary first meets them. */
  method ItemTidsets(db: seq<Txn>) returns (items: seq<Item>, tidset: map<Item, set<int>>)
    ensures Distinct(items) && forall x :: x in items <==> x in tidset
    ensures forall x :: x in tidset <==> Tids([x], db) != {}
    ensures forall x :: x in tidset ==> tidset[x] == Tids([x], db)
  {
    items, tidset := [], map[];
    var tid := 0;
    while tid < |db|
      invariant 0 <= tid <= |db|
      invariant Distinct(items) && forall x :: x in items <==> x in tidset
      invariant forall x :: x in tidset <==> TidsBelow([x], db, tid) != {}
      invariant forall x :: x in tidset ==> tidset[x] == TidsBelow([x], db, tid)
    {
      var keys := DictKeys(db[tid]);
      items, tidset := AddTid(items, tidset, keys, tid);
      forall x ensures TidsBelow([x], db, tid + 1) == TidsBelow([x], db, tid) + (if x in keys then {tid} else {}) {
        assert Contains(db[tid], [x]) <==> x in keys;
        TidsSnoc([x], db, tid);
      }
      tid := tid + 1;
    }
  }

  /** The inner loop of ItemTidsets: adds tid to the tid-set of each key,
      creating the tid-sets of keys not met before. */
  method AddTid(items0: seq<Item>, tidset0: map<Item, set<int>>, keys: seq<Item>, tid: int)
    returns (items: seq<Item>, tidset: map<Item, set<int>>)
    requires Distinct(items0) && forall x :: x in items0 <==> x in tidset0
    ensures Distinct(items) && forall x :: x in items <==> x in tidset
    ensures forall x :: x in tidset <==> x in tidset0 || x in keys
    ensures forall x :: x in tidset ==>
      tidset[x] == (if x in tidset0 then tidset0[x] else {}) + (if x in keys then {tid} else {})
  {
    items, tidset := items0, tidset0;
    var m := 0;
    while m < |keys|
      invariant 0 <= m <= |keys|
      invariant Distinct(items) && forall x :: x in items <==> x in tidset
      invariant forall x :: x in tidset <==> x in tidset0 || x in keys[..m]
      invariant forall x :: x in tidset ==>
        tidset[x] == (if x in tidset0 then tidset0[x] else {}) + (if x in keys[..m] then {tid} else {})
    {
      var x := keys[m];
      assert keys[..m + 1] == keys[..m] + [x];
      if x in tidset {
        tidset := tidset[x := tidset[x] + {tid}];
      } else {
        items := items + [x];
        tidset := tidset[x := {tid}];
      }
      m := m + 1;
    }
    assert keys[..m] == keys;
  }

  /** Level one (ihup.py:69-72): a single-item tuple for each item, in
      dictionary order, whose TWU over its tid-set reaches the threshold. */
  function Singles(items: seq<Item>, tidset: map<Item, set<int>>, db: seq<Txn>, minUtil: int)
    : (r: seq<seq<Item>>)
    requires forall x :: x in items ==> x in tidset
    ensures forall X :: X in r ==> |X| == 1
    ensures forall x :: [x] in r <==> x in items && TotalOver(db, tidset[x]) >= minUtil
  {
    if |items| == 0 then []
    else
      var x := items[|items| - 1];
      var init := items[..|items| - 1];
      assert forall y :: y in items <==> y in init || y == x by {
        assert items == init + [x];
      }
      Singles(init, tidset, db, minUtil) + (if TotalOver(db, tidset[x]) >= minUtil then [[x]] else [])
  }

  lemma {:induction false} SinglesNoDup(items: seq<Item>, tidset: map<Item, set<int>>, db: seq<Txn>, minUtil: int)
    requires forall x :: x in items ==> x in tidset
    requires Distinct(items)
    ensures NoDupSeqs(Singles(items, tidset, db, minUtil))
  {
    if |items| > 0 {
      var x := items[|items| - 1];
      var init := items[..|items| - 1];
      DistinctInit(items);
      assert forall y :: y in init ==> y in items;
      SinglesNoDup(init, tidset, db, minUtil);
      var r0 := Singles(init, tidset, db, minUtil);
      var tail: seq<seq<Item>> := if TotalOver(db, tidset[x]) >= minUtil then [[x]] else [];
      assert Singles(items, tidset, db, minUtil) == r0 + tail;
      assert [x] !in r0;
      assert forall X :: X in r0 ==> X !in tail;
      NoDupSeqsConcat(r0, tail);
    }
  }

  /** Whether the pair s1, s2 of level k - 1 is joined: from level three on
      they must agree on all but their last item (ihup.py:89). */
  predicate Joinable(k: nat, s1: seq<Item>, s2: seq<Item>)
    requires |s1| > 0 && |s2| > 0
  {
    k <= 2 || Head(s1) == Head(s2)
  }

  /** The pair s1, s2 has been dealt with: it is not joinable, or its join is
      in the level, or the join does not occur, or its TWU is below the
      threshold. */
  ghost predicate Handled(db: seq<Txn>, minUtil: int, k: nat, s1: seq<Item>, s2: seq<Item>, next: seq<seq<Item>>)
    requires |s1| > 0 && |s2| > 0
  {
    var X := Union(s1, s2);
    !Joinable(k, s1, s2) || X in next || Tids(X, db) == {} || TWU(X, db) < minUtil
  }

  /** What holds of the level being built. */
  ghost predicate LevelSound(db: seq<Txn>, minUtil: int, k: nat, next: seq<seq<Item>>, nextTids: map<seq<Item>, set<int>>) {
    && NoDupSeqs(next)
    && (forall X :: X in next <==> X in nextTids)
    && (forall X :: X in nextTids ==> nextTids[X] == Tids(X, db))
    && (forall X :: X in next ==> |X| == k && Promising(X, db, minUtil))
  }

  /** Every itemset of the previous level has length k - 1, is sorted, and
      carries its tid-set. */
  ghost predicate Carried(db: seq<Txn>, k: nat, prev: seq<seq<Item>>, tids: map<seq<Item>, set<int>>) {
    forall a :: a in prev ==> |a| == k - 1 && Increasing(a) && a in tids && tids[a] == Tids(a, db)
  }

  /** One level of the join (ihup.py:81-103). Each pair i < j of the previous
      level that is joinable gives the sorted union, skipped when the level
      already holds it; its tid-set is the intersection of the pair's, and it
      joins the level when that tid-set is non-empty and its TWU reaches the
      threshold. The level is then exactly the promising itemsets of length k
      whose two generators were in the previous level. */
  method JoinLevel(db: seq<Txn>, minUtil: int, prev: seq<seq<Item>>, k: nat, tids: map<seq<Item>, set<int>>)
    returns (next: seq<seq<Item>>, nextTids: map<seq<Item>, set<int>>)
    requires k >= 2 && NoDupSeqs(prev) && Carried(db, k, prev, tids)
    ensures LevelSound(db, minUtil, k, next, nextTids)
    ensures forall X :: |X| == k && Promising(X, db, minUtil) && Head(X) in prev && Skip(X) in prev ==> X in next
  {
    next, nextTids := [], map[];
    var n := |prev|;
    var i := 0;
    while i < n
      invariant 0 <= i <= n
      invariant LevelSound(db, minUtil, k, next, nextTids)
      invariant RowsHandled(db, minUtil, k, prev, i, next)
    {
      ghost var before := next;
      next, nextTids := JoinRow(db, minUtil, prev, k, tids, i, next, nextTids);
      RowsAdvance(db, minUtil, k, prev, i, before, next);
      i := i + 1;
    }
    LevelComplete(db, minUtil, k, prev, next);
  }

  /** Every pair (a, b) of the previous level with a below row i is handled. */
  ghost predicate RowsHandled(db: seq<Txn>, minUtil: int, k: nat, prev: seq<seq<Item>>, i: nat, next: seq<seq<Item>>)
    requires forall a :: a in prev ==> |a| > 0
  {
    forall a, b :: 0 <= a < i && a < b < |prev| ==> Handled(db, minUtil, k, prev[a], prev[b], next)
  }

  /** After row i, the rows up to and including i are handled. */
  lemma RowsAdvance(db: seq<Txn>, minUtil: int, k: nat, prev: seq<seq<Item>>, i: nat, before: seq<seq<Item>>, next: seq<seq<Item>>)
    requires forall a :: a in prev ==> |a| > 0
    requires i < |prev| && RowsHandled(db, minUtil, k, prev, i, before)
    requires forall X :: X in before ==> X in next
    requires forall b :: i < b < |prev| ==> Handled(db, minUtil, k, prev[i], prev[b], next)
    ensures RowsHandled(db, minUtil, k, prev, i + 1, next)
  {
    forall a, b | 0 <= a < i + 1 && a < b < |prev| ensures Handled(db, minUtil, k, prev[a], prev[b], next) {
      if a < i {
        HandledGrows(db, minUtil, k, prev[a], prev[b], before, next);
      }
    }
  }

  /** When every pair of the previous level is handled, each promising itemset
      of length k whose two generators are in the previous level is in the
      level. */
  lemma LevelComplete(db: seq<Txn>, minUtil: int, k: nat, prev: seq<seq<Item>>, next: seq<seq<Item>>)
    requires k >= 2
    requires forall a :: a in prev ==> |a| == k - 1
    requires forall a, b :: 0 <= a < b < |prev| ==> Handled(db, minUtil, k, prev[a], prev[b], next)
    ensures forall X :: |X| == k && Promising(X, db, minUtil) && Head(X) in prev && Skip(X) in prev ==> X in next
  {
    forall X | |X| == k && Promising(X, db, minUtil) && Head(X) in prev && Skip(X) in prev
      ensures X in next
    {
      Generators(X);
      var a, b := Head(X), Skip(X);
      var ia :| 0 <= ia < |prev| && prev[ia] == a;
      var ib :| 0 <= ib < |prev| && prev[ib] == b;
      UnionSymmetric(a, b);
      if ia < ib {
        assert Handled(db, minUtil, k, prev[ia], prev[ib], next);
      } else {
        assert Handled(db, minUtil, k, prev[ib], prev[ia], next);
      }
    }
  }

  /** A pair once handled stays handled as the level grows. */
  lemma HandledGrows(db: seq<Txn>, minUtil: int, k: nat, s1: seq<Item>, s2: seq<Item>, next0: seq<seq<Item>>, next: seq<seq<Item>>)
    requires |s1| > 0 && |s2| > 0
    requires Handled(db, minUtil, k, s1, s2, next0)
    requires forall X :: X in next0 ==> X in next
    ensures Handled(db, minUtil, k, s1, s2, next)
  {
  }

  /** Adding a new promising itemset of length k, with its tid-set, keeps the
      level sound. */
  lemma LevelExtend(db: seq<Txn>, minUtil: int, k: nat, next: seq<seq<Item>>, nextTids: map<seq<Item>, set<int>>,
                    X: seq<Item>, T: set<int>)
    requires LevelSound(db, minUtil, k, next, nextTids)
    requires X !in nextTids && |X| == k && Promising(X, db, minUtil) && T == Tids(X, db)
    ensures LevelSound(db, minUtil, k, next + [X], nextTids[X := T])
  {
    NoDupSeqsConcat(next, [X]);
  }

  /** The body of the inner loop (ihup.py:86-103): the pair s1, s2 is
      handled, and the level only grows. */
  method JoinPair(db: seq<Txn>, minUtil: int, k: nat, tids: map<seq<Item>, set<int>>, s1: seq<Item>, s2: seq<Item>,
                  next0: seq<seq<Item>>, nextTids0: map<seq<Item>, set<int>>)
    returns (next: seq<seq<Item>>, nextTids: map<seq<Item>, set<int>>)
    requires k >= 2 && s1 != s2
    requires |s1| == k - 1 && Increasing(s1) && s1 in tids && tids[s1] == Tids(s1, db)
    requires |s2| == k - 1 && Increasing(s2) && s2 in tids && tids[s2] == Tids(s2, db)
    requires LevelSound(db, minUtil, k, next0, nextTids0)
    ensures LevelSound(db, minUtil, k, next, nextTids)
    ensures forall X :: X in next <==> X in next0 || (X == Union(s1, s2) && X !in next0 && Joinable(k, s1, s2)
                                                    && Tids(X, db) != {} && TWU(X, db) >= minUtil)
    ensures Handled(db, minUtil, k, s1, s2, next)
  {
    next, nextTids := next0, nextTids0;
    if Joinable(k, s1, s2) {
      var X := Union(s1, s2);
      if X !in nextTids {
        var T := tids[s1] * tids[s2];
        TidsJoin(s1, s2, db);
        if T != {} {
          var twu := TotalOver(db, T);
          TotalOverTids(X, db);
          if twu >= minUtil {
            assert Head(s1) == Head(s2) by {
              if k == 2 {
                assert Head(s1) == [] == Head(s2);
              }
            }
            JoinSize(s1, s2);
            LevelExtend(db, minUtil, k, next, nextTids, X, T);
            next := next + [X];
            nextTids := nextTids[X := T];
          }
        }
      }
    }
  }

  /** The inner loop of JoinLevel: the pairs (i, j) for every j > i. The
      level only grows, and every such pair is handled afterwards. */
  method JoinRow(db: seq<Txn>, minUtil: int, prev: seq<seq<Item>>, k: nat, tids: map<seq<Item>, set<int>>, i: nat,
                 next0: seq<seq<Item>>, nextTids0: map<seq<Item>, set<int>>)
    returns (next: seq<seq<Item>>, nextTids: map<seq<Item>, set<int>>)
    requires k >= 2 && i < |prev| && NoDupSeqs(prev) && Carried(db, k, prev, tids)
    requires LevelSound(db, minUtil, k, next0, nextTids0)
    ensures LevelSound(db, minUtil, k, next, nextTids)
    ensures forall X :: X in next0 ==> X in next
    ensures forall b :: i < b < |prev| ==> Handled(db, minUtil, k, prev[i], prev[b], next)
  {
    next, nextTids := next0, nextTids0;
    var s1 := prev[i];
    assert s1 in prev;
    var j := i + 1;
    while j < |prev|
      invariant i + 1 <= j <= |prev|
      invariant LevelSound(db, minUtil, k, next, nextTids)
      invariant forall X :: X in next0 ==> X in next
      invariant PairsHandled(db, minUtil, k, prev, i, j, next)
    {
      var s2 := prev[j];
      assert s2 in prev;
      assert s1 != s2 by {
        assert prev[i] == s1 && prev[j] == s2;
      }
      ghost var before := next;
      next, nextTids := JoinPair(db, minUtil, k, tids, s1, s2, next, nextTids);
      PairsAdvance(db, minUtil, k, prev, i, j, before, next);
      j := j + 1;
    }
  }

  /** Every pair (i, b) with b below j is handled. */
  ghost predicate PairsHandled(db: seq<Txn>, minUtil: int, k: nat, prev: seq<seq<Item>>, i: nat, j: nat, next: seq<seq<Item>>)
    requires i < |prev| && forall a :: a in prev ==> |a| > 0
  {
    forall b :: i < b < j && b < |prev| ==> Handled(db, minUtil, k, prev[i], prev[b], next)
  }

  /** After the pair (i, j), the pairs up to and including j are handled. */
  lemma PairsAdvance(db: seq<Txn>, minUtil: int, k: nat, prev: seq<seq<Item>>, i: nat, j: nat,
                     before: seq<seq<Item>>, next: seq<seq<Item>>)
    requires i < j < |prev| && forall a :: a in prev ==> |a| > 0
    requires PairsHandled(db, minUtil, k, prev, i, j, before)
    requires forall X :: X in before ==> X in next
    requires Handled(db, minUtil, k, prev[i], prev[j], next)
    ensures PairsHandled(db, minUtil, k, prev, i, j + 1, next)
  {
    forall b | i < b < j + 1 && b < |prev| ensures Handled(db, minUtil, k, prev[i], prev[b], next) {
      if b < j {
        HandledGrows(db, minUtil, k, prev[i], prev[b], before, next);
      }
    }
  }

  /** The second phase (ihup.py:109-118): for each candidate, in order, the
      sum over its tid-set of the utilities of its items, reported when it
      reaches the threshold. */
  method ExactPhase(db: seq<Txn>, minUtil: int, cands: seq<seq<Item>>, tids: map<seq<Item>, set<int>>)
    returns (r: seq<(seq<Item>, int)>)
    requires forall X :: X in cands ==> X in tids && tids[X] == Tids(X, db)
    ensures r == Report(cands, db, minUtil)
  {
    r := [];
    var c := 0;
    while c < |cands|
      invariant 0 <= c <= |cands|
      invariant r == Report(cands[..c], db, minUtil)
    {
      var X := cands[c];
      assert X in cands;
      var total := 0;
      var rest := tids[X];
      ghost var order := TidList(rest, |db|);
      TidListElems(rest, |db|);
      UtilOverMatches(X, db, rest);
      while rest != {}
        invariant rest <= Tids(X, db)
        invariant rest == Elems(order)
        invariant total + UtilOver(db, X, rest) == Utility(X, db)
        decreases |rest|
      {
        EmptyElems(order);
        var w := order[0];
        assert w in order;
        assert w in rest;
        var t :| t in rest;
        total := total + SumOf(Dict(db[t]), X);
        UtilOverRemove(db, X, rest, t);
        WithoutElems(order, t);
        order := Without(order, t);
        rest := rest - {t};
      }
      UtilOverEmpty(db, X);
      if total >= minUtil {
        r := r + [(X, total)];
      }
      assert cands[..c + 1][..c] == cands[..c];
      c := c + 1;
    }
    assert cands[..c] == cands;
  }

  /** The first level (ihup.py:64-77): the promising single-item tuples, in
      order, each with its tid-set. */
  method FirstLevel(db: seq<Txn>, minUtil: int) returns (prev: seq<seq<Item>>, tids: map<seq<Item>, set<int>>)
    ensures NoDupSeqs(prev) && LexSorted(prev)
    ensures forall X :: X in prev ==> |X| == 1 && Promising(X, db, minUtil) && X in tids && tids[X] == Tids(X, db)
    ensures forall X :: |X| == 1 && Promising(X, db, minUtil) ==> X in prev
  {
    var items, tidset := ItemTidsets(db);
    var level1 := Singles(items, tidset, db, minUtil);
    SinglesNoDup(items, tidset, db, minUtil);
    prev := LexSort(level1);
    NoDupSeqsMultiset(level1, prev);
    assert forall X :: X in prev <==> X in level1 by {
      assert forall X :: X in prev <==> X in multiset(prev);
    }
    tids := map x | x in tidset && [x] in prev :: [x] := tidset[x];
    forall X | X in prev ensures |X| == 1 && Promising(X, db, minUtil) && X in tids && tids[X] == Tids(X, db) {
      var x := X[0];
      Singleton(X);
      TotalOverTids(X, db);
    }
    forall X | |X| == 1 && Promising(X, db, minUtil) ensures X in prev {
      var x := X[0];
      Singleton(X);
      assert x in tidset;
      TotalOverTids(X, db);
      assert [x] in level1;
    }
  }

  /** With nonnegative totals, when no promising itemset has length m, none
      is longer either. */
  lemma NoneLonger(db: seq<Txn>, minUtil: int, m: nat)
    requires TotalsNonneg(db) && m > 0
    requires forall X :: !(Promising(X, db, minUtil) && |X| == m)
    ensures forall X :: Promising(X, db, minUtil) ==> |X| < m
  {
    forall X | Promising(X, db, minUtil) ensures |X| < m {
      PromisingCut(X, db, minUtil, m);
    }
  }

  /** What holds of the candidates before level k is built. */
  ghost predicate Candidates(db: seq<Txn>, minUtil: int, k: nat, prev: seq<seq<Item>>, cands: seq<seq<Item>>,
                             tids: map<seq<Item>, set<int>>) {
    && NoDupSeqs(prev) && NoDupSeqs(cands)
    && (forall X :: X in prev ==> |X| == k - 1 && Promising(X, db, minUtil) && X in cands)
    && (forall X :: X in cands ==> Promising(X, db, minUtil) && |X| < k && X in tids && tids[X] == Tids(X, db))
  }

  /** Every promising itemset shorter than k is a candidate, and those of
      length k - 1 are in the last level. */
  ghost predicate AllCandidates(db: seq<Txn>, minUtil: int, k: nat, prev: seq<seq<Item>>, cands: seq<seq<Item>>) {
    && (forall X :: Promising(X, db, minUtil) && |X| == k - 1 ==> X in prev)
    && (forall X :: Promising(X, db, minUtil) && |X| < k ==> X in cands)
  }

  /** One round of the level loop: the sorted new level and the candidates
      and tid-sets grown by it meet the loop's invariants at k + 1. */
  lemma LevelAdvance(db: seq<Txn>, minUtil: int, k: nat, prev: seq<seq<Item>>, cands: seq<seq<Item>>,
                     tids: map<seq<Item>, set<int>>, next: seq<seq<Item>>, nextTids: map<seq<Item>, set<int>>,
                     sorted: seq<seq<Item>>)
    requires k >= 2 && Candidates(db, minUtil, k, prev, cands, tids)
    requires TotalsNonneg(db) ==> AllCandidates(db, minUtil, k, prev, cands)
    requires LevelSound(db, minUtil, k, next, nextTids)
    requires forall X :: |X| == k && Promising(X, db, minUtil) && Head(X) in prev && Skip(X) in prev ==> X in next
    requires multiset(sorted) == multiset(next)
    ensures Candidates(db, minUtil, k + 1, sorted, cands + next, tids + nextTids)
    ensures TotalsNonneg(db) ==> AllCandidates(db, minUtil, k + 1, sorted, cands + next)
  {
    NoDupSeqsMultiset(next, sorted);
    assert forall X :: X in sorted <==> X in next by {
      assert forall X :: X in sorted <==> X in multiset(sorted);
    }
    forall X | TotalsNonneg(db) && Promising(X, db, minUtil) && |X| == k ensures X in next {
      PromisingGenerators(X, db, minUtil);
      Generators(X);
    }
    NoDupSeqsConcat(cands, next);
  }

  /** `ihup_two_phase_from_parsed` after parsing (ihup.py:56-119). Every
      reported pair is a promising itemset with its exact utility, which
      reaches the threshold; no itemset is reported twice; with nonnegative
      totals every promising itemset is a candidate, so every promising
      itemset of high utility is reported; and with well-formed transactions
      every high-utility increasing itemset that occurs is reported. */
  method IhupTwoPhase(db: seq<Txn>, minUtil: int) returns (r: seq<(seq<Item>, int)>)
    ensures forall p :: p in r ==> Promising(p.0, db, minUtil) && p.1 == Utility(p.0, db) && p.1 >= minUtil
    ensures NoDupKeys(r)
    ensures TotalsNonneg(db) ==>
      forall X :: Promising(X, db, minUtil) && Utility(X, db) >= minUtil ==> (X, Utility(X, db)) in r
    ensures WellFormedDb(db) ==>
      forall X :: |X| > 0 && Increasing(X) && Occurs(X, db) && Utility(X, db) >= minUtil ==> (X, Utility(X, db)) in r
  {
    var prev, tids := FirstLevel(db, minUtil);
    var cands := prev;
    var k := 2;
    forall X | Promising(X, db, minUtil) && |X| < k ensures X in cands {
    }
    while |prev| > 0
      invariant k >= 2 && Candidates(db, minUtil, k, prev, cands, tids)
      invariant TotalsNonneg(db) ==> AllCandidates(db, minUtil, k, prev, cands)
      decreases |AllItems(db)| + 1 - k
    {
      var p0 := prev[0];
      assert p0 in prev;
      PromisingLength(p0, db, minUtil);
      var next, nextTids := JoinLevel(db, minUtil, prev, k, tids);
      var sorted := LexSort(next);
      LevelAdvance(db, minUtil, k, prev, cands, tids, next, nextTids, sorted);
      prev := sorted;
      tids := tids + nextTids;
      cands := cands + next;
      k := k + 1;
    }
    if TotalsNonneg(db) {
      NoneLonger(db, minUtil, k - 1);
    }
    r := ExactPhase(db, minUtil, cands, tids);
    ReportFound(db, minUtil, cands, r);
  }

  /** The exact phase over candidates that are promising and distinct, and
      that are all the promising itemsets when the totals are nonnegative. */
  lemma ReportFound(db: seq<Txn>, minUtil: int, cands: seq<seq<Item>>, r: seq<(seq<Item>, int)>)
    requires r == Report(cands, db, minUtil)
    requires NoDupSeqs(cands) && forall X :: X in cands ==> Promising(X, db, minUtil)
    requires TotalsNonneg(db) ==> forall X :: Promising(X, db, minUtil) ==> X in cands
    ensures forall p :: p in r ==> Promising(p.0, db, minUtil) && p.1 == Utility(p.0, db) && p.1 >= minUtil
    ensures NoDupKeys(r)
    ensures TotalsNonneg(db) ==>
      forall X :: Promising(X, db, minUtil) && Utility(X, db) >= minUtil ==> (X, Utility(X, db)) in r
    ensures WellFormedDb(db) ==>
      forall X :: |X| > 0 && Increasing(X) && Occurs(X, db) && Utility(X, db) >= minUtil ==> (X, Utility(X, db)) in r
  {
    ReportNoDup(cands, db, minUtil);
    forall X | WellFormedDb(db) && |X| > 0 && Increasing(X) && Occurs(X, db) && Utility(X, db) >= minUtil
      ensures Promising(X, db, minUtil)
    {
      HighIsPromising(X, db, minUtil);
    }
    if WellFormedDb(db) {
      WellFormedTotals(db);
    }
  }
}
