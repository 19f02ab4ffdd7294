/** What the level-wise (Apriori) engines share: item tuples kept in
    increasing order, the sorted union that joins two tuples, tid-sets and the
    sums taken over them, and the itemsets a level-wise search keeps. */
module Apriori {
  import opened Db

  /** An item tuple in strictly increasing order, the shape
      `tuple(sorted(...))` of distinct items gives. */
  predicate Increasing(X: seq<Item>) {
    forall i, j :: 0 <= i < j < |X| ==> X[i] < X[j]
  }

  /** No tuple twice in a list of tuples. */
  predicate NoDupSeqs(s: seq<seq<Item>>) {
    forall i, j :: 0 <= i < j < |s| ==> s[i] != s[j]
  }

  /** No itemset reported twice. */
  predicate NoDupKeys(s: seq<(seq<Item>, int)>) {
    forall i, j :: 0 <= i < j < |s| ==> s[i].0 != s[j].0
  }

  /** Puts x into an increasing tuple unless it is already there. */
  function InsertUnique(x: Item, s: seq<Item>): (r: seq<Item>)
    requires Increasing(s)
    ensures Increasing(r) && forall y :: y in r <==> y in s || y == x
  {
    if |s| == 0 then [x]
    else if x < s[0] then [x] + s
    else if x == s[0] then s
    else
      var tail := InsertUnique(x, s[1..]);
      assert forall y :: y in s <==> y == s[0] || y in s[1..] by {
        assert s == [s[0]] + s[1..];
      }
      assert forall j :: 0 <= j < |tail| ==> tail[j] in tail;
      [s[0]] + tail
  }

  /** `tuple(sorted(set(s)))`. */
  function SortedSet(s: seq<Item>): (r: seq<Item>)
    ensures Increasing(r) && forall y :: y in r <==> y in s
  {
    if |s| == 0 then []
    else
      assert forall y :: y in s <==> y in s[..|s| - 1] || y == s[|s| - 1] by {
        assert s == s[..|s| - 1] + [s[|s| - 1]];
      }
      InsertUnique(s[|s| - 1], SortedSet(s[..|s| - 1]))
  }

  /** `tuple(sorted(set(a) | set(b)))`: the join of two tuples. */
  function Union(a: seq<Item>, b: seq<Item>): (r: seq<Item>)
    ensures Increasing(r) && forall y :: y in r <==> y in a || y in b
  {
    SortedSet(a + b)
  }

  /** A tuple without its last item. */
  function Head(X: seq<Item>): seq<Item>
    requires |X| > 0
  {
    X[..|X| - 1]
  }

  /** A tuple without its second-to-last item. */
  function Skip(X: seq<Item>): seq<Item>
    requires |X| >= 2
  {
    X[..|X| - 2] + [X[|X| - 1]]
  }

  /** The tids below n of the transactions containing every item of X. */
  function TidsBelow(X: seq<Item>, db: seq<Txn>, n: nat): (T: set<int>)
    ensures forall k :: k in T <==> 0 <= k < n && k < |db| && Contains(db[k], X)
  {
    set k | 0 <= k < n && k < |db| && Contains(db[k], X)
  }

  /** The tid-set of X: the tids of the transactions containing X. */
  function Tids(X: seq<Item>, db: seq<Txn>): (T: set<int>)
    ensures forall k :: k in T <==> 0 <= k < |db| && Contains(db[k], X)
  {
    TidsBelow(X, db, |db|)
  }

  /** `sum(transaction_utils[tid] for tid in T)`. */
  function TotalOver(db: seq<Txn>, T: set<int>): int {
    if |db| == 0 then 0
    else TotalOver(db[..|db| - 1], T) + (if |db| - 1 in T then db[|db| - 1].total else 0)
  }

  /** The summed utility of X over the transactions whose tids are in T. */
  function UtilOver(db: seq<Txn>, X: seq<Item>, T: set<int>): int {
    if |db| == 0 then 0
    else UtilOver(db[..|db| - 1], X, T) + (if |db| - 1 in T then UtilIn(db[|db| - 1], X) else 0)
  }

  /** Every item any transaction mentions. */
  ghost function AllItems(db: seq<Txn>): set<Item> {
    set k, i | 0 <= k < |db| && i in Dict(db[k]) :: i
  }

  /** The itemsets a level-wise search keeps: a non-empty increasing tuple
      that occurs in some transaction (its tid-set is not empty) and whose TWU
      reaches the threshold. */
  predicate Promising(X: seq<Item>, db: seq<Txn>, minUtil: int) {
    |X| > 0 && Increasing(X) && Tids(X, db) != {} && TWU(X, db) >= minUtil
  }

  /** The second phase: the candidates, in order, whose exact utility reaches
      the threshold, each paired with that utility. */
  function Report(cands: seq<seq<Item>>, db: seq<Txn>, minUtil: int): (r: seq<(seq<Item>, int)>)
    ensures forall p :: p in r <==> p.0 in cands && p.1 == Utility(p.0, db) && p.1 >= minUtil
  {
    if |cands| == 0 then []
    else
      var X := cands[|cands| - 1];
      var u := Utility(X, db);
      assert forall Y :: Y in cands <==> Y in cands[..|cands| - 1] || Y == X by {
        assert cands == cands[..|cands| - 1] + [X];
      }
      Report(cands[..|cands| - 1], db, minUtil) + (if u >= minUtil then [(X, u)] else [])
  }

  /** `[k for k in range(n) if k in T]`: a listing of a set of tids, so that
      a walk over the set can name its next element. */
  ghost function TidList(T: set<int>, n: nat): (r: seq<int>)
    ensures forall y :: y in r <==> 0 <= y < n && y in T
  {
    if n == 0 then [] else TidList(T, n - 1) + (if n - 1 in T then [n - 1] else [])
  }

  /** A listing with one element taken out. */
  ghost function Without(s: seq<int>, t: int): (r: seq<int>)
    ensures forall y :: y in r <==> y in s && y != t
  {
    if |s| == 0 then [] else (if s[0] == t then [] else [s[0]]) + Without(s[1..], t)
  }

  lemma TidListElems(T: set<int>, n: nat)
    requires forall y :: y in T ==> 0 <= y < n
    ensures Elems(TidList(T, n)) == T
  {
  }

  lemma WithoutElems(s: seq<int>, t: int)
    ensures Elems(Without(s, t)) == Elems(s) - {t}
  {
  }

  lemma EmptyElems(s: seq<int>)
    ensures |s| == 0 ==> Elems(s) == {}
  {
  }

  // ---------------------------------------------------------------------
  // Increasing tuples

  lemma IncreasingDistinct(X: seq<Item>)
    requires Increasing(X)
    ensures Distinct(X)
  {
  }

  /** An increasing tuple is determined by its items. */
  lemma {:induction false} IncreasingUnique(a: seq<Item>, b: seq<Item>)
    requires Increasing(a) && Increasing(b) && forall y :: y in a <==> y in b
    ensures a == b
  {
    IncreasingCard(a);
    IncreasingCard(b);
    assert Elems(a) == Elems(b);
    if |a| > 0 {
      var a0, b0 := a[0], b[0];
      assert a0 in a;
      assert b0 in b;
      assert a0 in b && b0 in a;
      IncreasingSplit(a);
      IncreasingSplit(b);
      assert a0 == b0;
      forall y ensures y in a[1..] <==> y in b[1..] {
        assert y in a <==> y == a0 || y in a[1..];
        assert y in b <==> y == b0 || y in b[1..];
      }
      IncreasingUnique(a[1..], b[1..]);
    }
  }

  /** The first item of an increasing tuple is smaller than all the rest. */
  lemma IncreasingSplit(a: seq<Item>)
    requires Increasing(a) && |a| > 0
    ensures a == [a[0]] + a[1..] && Increasing(a[1..])
    ensures forall y :: y in a[1..] ==> y > a[0]
    ensures forall y :: y in a <==> y == a[0] || y in a[1..]
  {
    assert forall j :: 0 <= j < |a[1..]| ==> a[1..][j] == a[j + 1];
  }

  /** An increasing tuple has as many items as its set. */
  lemma {:induction false} IncreasingCard(a: seq<Item>)
    requires Increasing(a)
    ensures |Elems(a)| == |a|
  {
    if |a| > 0 {
      var t := a[1..];
      assert Increasing(t) by {
        forall i, j | 0 <= i < j < |t| ensures t[i] < t[j] {
          assert t[i] == a[i + 1] && t[j] == a[j + 1];
        }
      }
      IncreasingCard(t);
      assert a[0] !in Elems(t) by {
        forall i | 0 <= i < |t| ensures t[i] != a[0] {
          assert t[i] == a[i + 1];
        }
      }
      assert Elems(a) == {a[0]} + Elems(t) by {
        assert a == [a[0]] + t;
      }
    }
  }

  /** The join is symmetric. */
  lemma UnionSymmetric(a: seq<Item>, b: seq<Item>)
    ensures Union(a, b) == Union(b, a)
  {
    IncreasingUnique(Union(a, b), Union(b, a));
  }

  /** Two distinct tuples of one length that agree on all but their last item
      join into that common part followed by the two last items in order. */
  lemma JoinSize(a: seq<Item>, b: seq<Item>)
    requires |a| == |b| >= 1 && Increasing(a) && Increasing(b)
    requires Head(a) == Head(b) && a != b
    ensures |Union(a, b)| == |a| + 1
  {
    var p := Head(a);
    var x, y := a[|a| - 1], b[|b| - 1];
    assert a == p + [x] && b == p + [y];
    assert x != y;
    var lo, hi := Min(x, y), if x <= y then y else x;
    var c := p + [lo, hi];
    IncreasingSnoc(p, x);
    assert forall i :: 0 <= i < |p| ==> p[i] < x && p[i] < y by {
      assert forall i :: 0 <= i < |p| ==> a[i] == p[i] && b[i] == p[i];
    }
    TwoMore(p, lo, hi);
    forall z ensures z in c <==> z in a || z in b {
      assert z in a <==> z in p || z == x;
      assert z in b <==> z in p || z == y;
    }
    IncreasingUnique(Union(a, b), c);
  }

  /** Two increasing items above an increasing prefix extend it. */
  lemma TwoMore(p: seq<Item>, lo: Item, hi: Item)
    requires Increasing(p) && lo < hi && forall i :: 0 <= i < |p| ==> p[i] < lo
    ensures Increasing(p + [lo, hi])
    ensures forall z :: z in p + [lo, hi] <==> z in p || z == lo || z == hi
  {
    var c := p + [lo, hi];
    assert forall i :: 0 <= i < |p| ==> c[i] == p[i];
    assert c[|p|] == lo && c[|p| + 1] == hi;
  }

  lemma IncreasingSnoc(p: seq<Item>, x: Item)
    requires Increasing(p + [x])
    ensures Increasing(p) && x !in p
  {
    assert forall i :: 0 <= i < |p| ==> (p + [x])[i] == p[i];
    assert (p + [x])[|p|] == x;
  }

  /** A tuple of length at least two is the join of its two generators, which
      agree on all but their last item. */
  lemma Generators(X: seq<Item>)
    requires |X| >= 2 && Increasing(X)
    ensures Increasing(Head(X)) && Increasing(Skip(X))
    ensures |Head(X)| == |Skip(X)| == |X| - 1 && Head(X) != Skip(X)
    ensures Head(Head(X)) == Head(Skip(X))
    ensures Union(Head(X), Skip(X)) == X
  {
    var n := |X|;
    assert Head(X)[n - 2] != Skip(X)[n - 2];
    assert Head(Head(X)) == X[..n - 2];
    assert Head(Skip(X)) == X[..n - 2];
    assert forall y :: y in X <==> y in Head(X) || y in Skip(X) by {
      assert X == X[..n - 2] + [X[n - 2]] + [X[n - 1]];
      assert Head(X) == X[..n - 2] + [X[n - 2]];
    }
    IncreasingUnique(Union(Head(X), Skip(X)), X);
  }

  /** A one-item tuple is the tuple of its item. */
  lemma Singleton(X: seq<Item>)
    requires |X| == 1
    ensures X == [X[0]]
  {
  }

  /** An increasing tuple drawn from S is no longer than S is large. */
  lemma {:induction false} LengthBound(X: seq<Item>, S: set<Item>)
    requires Increasing(X) && forall x :: x in X ==> x in S
    ensures |X| <= |S|
  {
    if |X| > 0 {
      var x0 := X[0];
      var rest := X[1..];
      assert x0 in X;
      var S' := S - {x0};
      forall y | y in rest ensures y in S' {
        assert y in X;
      }
      LengthBound(rest, S');
    }
  }

  // ---------------------------------------------------------------------
  // Tid-sets

  lemma TidsSnoc(X: seq<Item>, db: seq<Txn>, n: nat)
    requires n < |db|
    ensures TidsBelow(X, db, n + 1) == TidsBelow(X, db, n) + (if Contains(db[n], X) then {n} else {})
  {
  }

  lemma OccursTids(X: seq<Item>, db: seq<Txn>)
    ensures Occurs(X, db) ==> Tids(X, db) != {}
  {
    if Occurs(X, db) {
      var k :| 0 <= k < |db| && Contains(db[k], X);
      assert k in Tids(X, db);
    }
  }

  /** A non-empty tid-set names a transaction that contains the itemset. */
  lemma {:induction false} TidsOccurBelow(X: seq<Item>, db: seq<Txn>, n: nat)
    requires n <= |db|
    ensures TidsBelow(X, db, n) != {} ==> exists k :: 0 <= k < n && Contains(db[k], X)
  {
    if n == 0 {
      assert TidsBelow(X, db, 0) == {};
    } else {
      TidsOccurBelow(X, db, n - 1);
      if !Contains(db[n - 1], X) {
        assert TidsBelow(X, db, n) == TidsBelow(X, db, n - 1);
      }
    }
  }

  lemma TidsOccur(X: seq<Item>, db: seq<Txn>)
    ensures Tids(X, db) != {} ==> Occurs(X, db)
  {
    TidsOccurBelow(X, db, |db|);
  }

  /** The tid-set of a join is the intersection of the two tid-sets. */
  lemma TidsJoin(a: seq<Item>, b: seq<Item>, db: seq<Txn>)
    ensures Tids(Union(a, b), db) == Tids(a, db) * Tids(b, db)
  {
    forall k | 0 <= k < |db|
      ensures Contains(db[k], Union(a, b)) <==> Contains(db[k], a) && Contains(db[k], b)
    {
      assert forall i :: i in Union(a, b) <==> i in a || i in b by {
        assert forall i :: i in Union(a, b) <==> i in Elems(Union(a, b));
      }
    }
  }

  /** The tid-set's total sum is the TWU. */
  lemma {:induction false} TotalOverMatches(X: seq<Item>, db: seq<Txn>, T: set<int>)
    requires forall k :: 0 <= k < |db| ==> (k in T <==> Contains(db[k], X))
    ensures TotalOver(db, T) == TWU(X, db)
  {
    if |db| > 0 {
      var init := db[..|db| - 1];
      forall k | 0 <= k < |init| ensures k in T <==> Contains(init[k], X) {
        assert init[k] == db[k];
      }
      TotalOverMatches(X, init, T);
    }
  }

  lemma TotalOverTids(X: seq<Item>, db: seq<Txn>)
    ensures TotalOver(db, Tids(X, db)) == TWU(X, db)
  {
    TotalOverMatches(X, db, Tids(X, db));
  }

  /** Summing the utility over the tid-set gives the exact utility. */
  lemma {:induction false} UtilOverMatches(X: seq<Item>, db: seq<Txn>, T: set<int>)
    requires forall k :: 0 <= k < |db| ==> (k in T <==> Contains(db[k], X))
    ensures UtilOver(db, X, T) == Utility(X, db)
  {
    if |db| > 0 {
      var init := db[..|db| - 1];
      forall k | 0 <= k < |init| ensures k in T <==> Contains(init[k], X) {
        assert init[k] == db[k];
      }
      UtilOverMatches(X, init, T);
    }
  }

  /** Taking one tid out of T takes its transaction's share out of the sum:
      the order a set is walked in does not change the sum. */
  lemma {:induction false} UtilOverRemove(db: seq<Txn>, X: seq<Item>, T: set<int>, t: nat)
    requires t in T && t < |db|
    ensures UtilOver(db, X, T) == UtilOver(db, X, T - {t}) + UtilIn(db[t], X)
  {
    var init := db[..|db| - 1];
    if t < |db| - 1 {
      assert init[t] == db[t];
      UtilOverRemove(init, X, T, t);
    } else {
      UtilOverSame(init, X, T, T - {t});
    }
  }

  lemma {:induction false} UtilOverSame(db: seq<Txn>, X: seq<Item>, T: set<int>, U: set<int>)
    requires forall k :: 0 <= k < |db| ==> (k in T <==> k in U)
    ensures UtilOver(db, X, T) == UtilOver(db, X, U)
  {
    if |db| > 0 {
      UtilOverSame(db[..|db| - 1], X, T, U);
    }
  }

  lemma {:induction false} UtilOverEmpty(db: seq<Txn>, X: seq<Item>)
    ensures UtilOver(db, X, {}) == 0
  {
    if |db| > 0 {
      UtilOverEmpty(db[..|db| - 1], X);
    }
  }

  // ---------------------------------------------------------------------
  // Promising itemsets

  /** Every prefix of a promising itemset is promising (TWU is
      anti-monotone when totals are nonnegative). */
  lemma PromisingPrefix(X: seq<Item>, db: seq<Txn>, minUtil: int, m: nat)
    requires TotalsNonneg(db) && Promising(X, db, minUtil) && 0 < m <= |X|
    ensures Promising(X[..m], db, minUtil)
  {
    TwuAntiMonotone(X[..m], X, db);
    TidsShrink(X[..m], X, db);
  }

  /** A promising itemset at least m long has a promising prefix of length m. */
  lemma PromisingCut(X: seq<Item>, db: seq<Txn>, minUtil: int, m: nat)
    requires TotalsNonneg(db) && Promising(X, db, minUtil) && m > 0
    ensures |X| >= m ==> |X[..m]| == m && Promising(X[..m], db, minUtil)
  {
    if |X| >= m {
      PromisingPrefix(X, db, minUtil, m);
    }
  }

  /** Fewer items, a tid-set no smaller. */
  lemma TidsShrink(X: seq<Item>, Y: seq<Item>, db: seq<Txn>)
    requires forall x :: x in X ==> x in Y
    ensures Tids(Y, db) <= Tids(X, db)
    ensures Tids(Y, db) != {} ==> Tids(X, db) != {}
  {
  }

  /** Both generators of a promising itemset are promising. */
  lemma PromisingGenerators(X: seq<Item>, db: seq<Txn>, minUtil: int)
    requires TotalsNonneg(db) && Promising(X, db, minUtil) && |X| >= 2
    ensures Promising(Head(X), db, minUtil) && Promising(Skip(X), db, minUtil)
  {
    Generators(X);
    TwuAntiMonotone(Head(X), X, db);
    TidsShrink(Head(X), X, db);
    TwuAntiMonotone(Skip(X), X, db);
    TidsShrink(Skip(X), X, db);
  }

  /** The items of an itemset that occurs are items of the database. */
  lemma OccursInItems(X: seq<Item>, db: seq<Txn>)
    requires Occurs(X, db)
    ensures forall x :: x in X ==> x in AllItems(db)
  {
    var k :| 0 <= k < |db| && Contains(db[k], X);
    forall i | i in X ensures i in AllItems(db) {
      assert i in Dict(db[k]);
    }
  }

  /** A promising itemset is no longer than the database has items, so the
      levels run out. */
  lemma PromisingLength(X: seq<Item>, db: seq<Txn>, minUtil: int)
    requires Promising(X, db, minUtil)
    ensures |X| <= |AllItems(db)|
  {
    TidsOccur(X, db);
    OccursInItems(X, db);
    LengthBound(X, AllItems(db));
  }

  /** With well-formed transactions, a high-utility increasing itemset is
      promising: the TWU filter never drops it. */
  lemma HighIsPromising(X: seq<Item>, db: seq<Txn>, minUtil: int)
    requires WellFormedDb(db) && |X| > 0 && Increasing(X) && Occurs(X, db)
    requires Utility(X, db) >= minUtil
    ensures Promising(X, db, minUtil)
  {
    IncreasingDistinct(X);
    UtilityAtMostTwu(X, db);
    OccursTids(X, db);
  }

  // ---------------------------------------------------------------------
  // Lists of tuples

  lemma NoDupSeqsMultiset(s: seq<seq<Item>>, r: seq<seq<Item>>)
    requires NoDupSeqs(s) && multiset(r) == multiset(s)
    ensures NoDupSeqs(r)
  {
    forall i, j | 0 <= i < j < |r| ensures r[i] != r[j] {
      if r[i] == r[j] {
        assert multiset(r)[r[i]] >= 2 by {
          assert r == r[..i] + [r[i]] + r[i + 1..j] + [r[j]] + r[j + 1..];
        }
        SeqCountOne(s, r[i]);
      }
    }
  }

  lemma {:induction false} SeqCountOne(s: seq<seq<Item>>, x: seq<Item>)
    requires NoDupSeqs(s)
    ensures multiset(s)[x] <= 1
  {
    if |s| > 0 {
      assert NoDupSeqs(s[1..]) by {
        forall a, b | 0 <= a < b < |s[1..]| ensures s[1..][a] != s[1..][b] {
          assert s[1..][a] == s[a + 1] && s[1..][b] == s[b + 1];
        }
      }
      SeqCountOne(s[1..], x);
      assert s == [s[0]] + s[1..];
      if s[0] == x {
        assert x !in s[1..] by {
          forall k | 0 <= k < |s[1..]| ensures s[1..][k] != x {
            assert s[1..][k] == s[k + 1];
          }
        }
      }
    }
  }

  lemma NoDupSeqsConcat(a: seq<seq<Item>>, b: seq<seq<Item>>)
    requires NoDupSeqs(a) && NoDupSeqs(b)
    requires forall x :: x in a ==> x !in b
    ensures NoDupSeqs(a + b)
  {
    forall i, j | 0 <= i < j < |a + b| ensures (a + b)[i] != (a + b)[j] {
      if i < |a| && j >= |a| {
        assert (a + b)[i] in a && (a + b)[j] == b[j - |a|];
      } else if i >= |a| {
        assert (a + b)[i] == b[i - |a|] && (a + b)[j] == b[j - |a|];
      }
    }
  }

  /** A report over distinct candidates names no itemset twice. */
  lemma {:induction false} ReportNoDup(cands: seq<seq<Item>>, db: seq<Txn>, minUtil: int)
    requires NoDupSeqs(cands)
    ensures NoDupKeys(Report(cands, db, minUtil))
  {
    if |cands| > 0 {
      var init := cands[..|cands| - 1];
      var X := cands[|cands| - 1];
      assert NoDupSeqs(init);
      ReportNoDup(init, db, minUtil);
      assert X !in init;
      var r0 := Report(init, db, minUtil);
      forall i | 0 <= i < |r0| ensures r0[i].0 != X {
        assert r0[i] in r0;
      }
    }
  }
}
