/** What `huiminer_one_phase_from_parsed` of hui.py returns: each emitted
    itemset with its exact utility at or above the threshold (soundness), each
    high-utility itemset in the global order emitted (completeness), and no
    itemset emitted twice. The proofs go through the revised transactions:
    the utility list the search keeps for an itemset is the exact list
    `ListFor` of that itemset, whose iutil column sums to its utility. */
module HuiMinerProofs {
  import opened Db
  import opened Ordering
  import opened UtilityLists
  import opened HuiMiner

  // ---------------------------------------------------------------------
  // Revised transactions

  /** Items appear in non-decreasing rank. */
  predicate RankSorted(ord: map<Item, nat>, s: seq<Item>) {
    forall i, j :: 0 <= i <= j < |s| ==> Rank(ord, s[i]) <= Rank(ord, s[j])
  }

  /** The shape of a revised transaction: aligned, no item twice, only ranked
      items, in rank order. */
  predicate Shaped(ord: map<Item, nat>, rt: RevTxn) {
    && Aligned(rt)
    && Distinct(rt.items)
    && (forall x :: x in rt.items ==> x in ord)
    && RankSorted(ord, rt.items)
  }

  /** Sorting by rank keeps the items, keeps them distinct and puts them in
      rank order. */
  lemma SortByRank(f: seq<Item>, ord: map<Item, nat>)
    ensures forall x :: x in SortBy(f, RankKey(ord)) <==> x in f
    ensures Distinct(f) ==> Distinct(SortBy(f, RankKey(ord)))
    ensures RankSorted(ord, SortBy(f, RankKey(ord)))
  {
    var kept := SortBy(f, RankKey(ord));
    if Distinct(f) {
      DistinctPerm(kept, f);
    }
    forall x ensures x in kept <==> x in f {
      assert x in kept <==> x in multiset(kept);
      assert x in f <==> x in multiset(f);
    }
    forall i, j | 0 <= i <= j < |kept| ensures Rank(ord, kept[i]) <= Rank(ord, kept[j]) {
      if i < j {
        assert KeyLe(RankKey(ord)(kept[i]), RankKey(ord)(kept[j]));
      }
    }
  }

  lemma ReviseOneShape(t: Txn, tid: nat, ord: map<Item, nat>)
    requires Simple(t)
    ensures Shaped(ord, ReviseOne(t, tid, ord))
    ensures forall x :: x in ReviseOne(t, tid, ord).items <==> x in t.items && x in ord
  {
    SortByRank(Filter(t.items, ord), ord);
  }

  lemma ReviseOneNonneg(t: Txn, tid: nat, ord: map<Item, nat>)
    requires Nonneg(t.utils)
    ensures Nonneg(ReviseOne(t, tid, ord).utils)
  {
    var rt := ReviseOne(t, tid, ord);
    forall k | 0 <= k < |rt.utils| ensures rt.utils[k] >= 0 {
      ZipNonneg(t.items, t.utils, rt.items[k]);
    }
  }

  /** The revised transaction gives each of its items the utility the
      transaction's dictionary gives it. */
  lemma ReviseOneUtil(t: Txn, tid: nat, ord: map<Item, nat>, X: seq<Item>)
    requires Simple(t) && ContainsR(ReviseOne(t, tid, ord), X)
    ensures UtilInR(ReviseOne(t, tid, ord), X) == UtilIn(t, X)
  {
    var rt := ReviseOne(t, tid, ord);
    ReviseOneShape(t, tid, ord);
    forall x | x in X ensures Get(Zip(rt.items, rt.utils), x) == Get(Dict(t), x) {
      var k := IndexOf(rt.items, x);
      ZipAt(rt.items, rt.utils, k);
    }
    SumOfAgree(Zip(rt.items, rt.utils), Dict(t), X);
  }

  /** Every revised transaction has the shape the search relies on, and
      nonnegative utilities when the database has them. */
  lemma {:induction false} ReviseShape(db: seq<Txn>, ord: map<Item, nat>)
    requires SimpleDb(db)
    ensures forall k :: 0 <= k < |Revise(db, ord)| ==> Shaped(ord, Revise(db, ord)[k])
    ensures WellFormedDb(db) ==> forall k :: 0 <= k < |Revise(db, ord)| ==> Nonneg(Revise(db, ord)[k].utils)
  {
    if |db| > 0 {
      var init := db[..|db| - 1];
      var last := db[|db| - 1];
      SimpleInit(db);
      if WellFormedDb(db) {
        WellFormedInit(db);
      }
      ReviseShape(init, ord);
      ReviseOneShape(last, |db| - 1, ord);
      if WellFormedDb(db) {
        ReviseOneNonneg(last, |db| - 1, ord);
      }
      var r0 := Revise(init, ord);
      var rev := Revise(db, ord);
      ReviseAt(db, ord);
      forall k | 0 <= k < |rev| ensures Shaped(ord, rev[k]) && (WellFormedDb(db) ==> Nonneg(rev[k].utils)) {
        if k < |r0| {
          assert rev[k] == r0[k];
        }
      }
    }
  }

  /** Revising one more transaction keeps the earlier revised transactions
      and adds at most the revised last one. */
  lemma ReviseAt(db: seq<Txn>, ord: map<Item, nat>)
    requires |db| > 0
    ensures var r0, rev := Revise(db[..|db| - 1], ord), Revise(db, ord);
      && |r0| <= |rev| <= |r0| + 1
      && (forall k :: 0 <= k < |r0| ==> rev[k] == r0[k])
      && (forall k :: |r0| <= k < |rev| ==> rev[k] == ReviseOne(db[|db| - 1], |db| - 1, ord))
  {
  }

  /** Revised transactions keep their original ids, in increasing order. */
  lemma {:induction false} ReviseTids(db: seq<Txn>, ord: map<Item, nat>)
    ensures forall k :: 0 <= k < |Revise(db, ord)| ==> Revise(db, ord)[k].tid < |db|
    ensures TidsIncreasing(Revise(db, ord))
  {
    if |db| > 0 {
      var init := db[..|db| - 1];
      ReviseTids(init, ord);
      var r0 := Revise(init, ord);
      var rev := Revise(db, ord);
      forall k | 0 <= k < |rev| ensures rev[k].tid < |db| {
        if k < |r0| {
          assert rev[k] == r0[k];
        }
      }
      forall i, j | 0 <= i < j < |rev| ensures rev[i].tid < rev[j].tid {
        assert rev[i] == r0[i];
        if j < |r0| {
          assert rev[j] == r0[j];
        }
      }
    }
  }

  /** For a simple transaction, containing X means holding every item of X. */
  lemma ContainsItems(t: Txn, X: seq<Item>)
    requires Simple(t)
    ensures Contains(t, X) <==> forall x :: x in X ==> x in t.items
  {
  }

  /** A transaction without ranked items contains no itemset of ranked items. */
  lemma TailEmpty(last: Txn, ord: map<Item, nat>, X: seq<Item>)
    requires Simple(last) && |X| > 0 && forall x :: x in X ==> x in ord
    requires Filter(last.items, ord) == []
    ensures !Contains(last, X)
  {
    var x0 := X[0];
    assert x0 in X;
    assert x0 !in Filter(last.items, ord);
    assert x0 !in Dict(last);
  }

  /** The entry a revised transaction contributes to the list of X. */
  lemma TailOne(last: Txn, n: nat, ord: map<Item, nat>, X: seq<Item>)
    requires Simple(last) && |X| > 0 && forall x :: x in X ==> x in ord
    ensures AllAligned([ReviseOne(last, n, ord)])
    ensures ListFor([ReviseOne(last, n, ord)], X) != [] <==> Contains(last, X)
    ensures SumIu(ListFor([ReviseOne(last, n, ord)], X)) == if Contains(last, X) then UtilIn(last, X) else 0
  {
    var rt := ReviseOne(last, n, ord);
    ContainsItems(last, X);
    ReviseOneShape(last, n, ord);
    assert ContainsR(rt, X) <==> Contains(last, X);
    assert [rt][1..] == [];
    if ContainsR(rt, X) {
      ReviseOneUtil(last, n, ord, X);
    }
  }

  /** The last transaction's contribution to the list of X. */
  lemma ReviseStep(db: seq<Txn>, ord: map<Item, nat>, X: seq<Item>)
    requires SimpleDb(db) && |db| > 0 && |X| > 0 && forall x :: x in X ==> x in ord
    ensures var init, last := db[..|db| - 1], db[|db| - 1];
      && SumIu(ListFor(Revise(db, ord), X))
         == SumIu(ListFor(Revise(init, ord), X)) + (if Contains(last, X) then UtilIn(last, X) else 0)
      && (ListFor(Revise(db, ord), X) != [] <==> ListFor(Revise(init, ord), X) != [] || Contains(last, X))
  {
    var n := |db| - 1;
    var init := db[..n];
    var last := db[n];
    SimpleInit(db);
    var r0 := Revise(init, ord);
    if Filter(last.items, ord) == [] {
      TailEmpty(last, ord, X);
      assert Revise(db, ord) == r0 + [];
      assert r0 + [] == r0;
    } else {
      var rt := ReviseOne(last, n, ord);
      TailOne(last, n, ord, X);
      assert Revise(db, ord) == r0 + [rt];
      ListForAppend(r0, [rt], X);
      SumIuAppend(ListFor(r0, X), ListFor([rt], X));
    }
  }

  /** The list of X built from the revised database sums to X's utility in
      the original one, and is nonempty exactly when X occurs there. */
  lemma {:induction false} ReviseFaithful(db: seq<Txn>, ord: map<Item, nat>, X: seq<Item>)
    requires SimpleDb(db) && |X| > 0 && forall x :: x in X ==> x in ord
    ensures SumIu(ListFor(Revise(db, ord), X)) == Utility(X, db)
    ensures ListFor(Revise(db, ord), X) != [] <==> Occurs(X, db)
  {
    if |db| > 0 {
      var init := db[..|db| - 1];
      SimpleInit(db);
      ReviseFaithful(init, ord, X);
      OccursSnoc(X, db);
      ReviseStep(db, ord, X);
    }
  }

  // ---------------------------------------------------------------------
  // The lists of step 4 are the exact lists of the single items

  /** `utility_lists.get(x, [])` after step 4 is the exact list of [x]. */
  lemma ListsFaithful(rev: seq<RevTxn>)
    requires AllAligned(rev) && AllDistinct(rev) && TidsIncreasing(rev)
    ensures forall x :: ListOf(SortLists(UtilityListsOf(rev)), x) == ListFor(rev, [x])
  {
    forall x ensures ListOf(SortLists(UtilityListsOf(rev)), x) == ListFor(rev, [x]) {
      OccurrencesIsListFor(rev, x);
      OccurrencesEmpty(rev, x);
      if x in ItemsOfRev(rev) {
        var l := ListFor(rev, [x]);
        ListForTidsIncreasing(rev, [x]);
        assert SortedBy(l, TidKey) by {
          forall i, j | 0 <= i < j < |l| ensures KeyLe(TidKey(l[i]), TidKey(l[j])) {
          }
        }
        SortBySorted(l, TidKey);
      }
    }
  }

  // ---------------------------------------------------------------------
  // The merge-join of step 5 builds the exact list of the extension

  /** When transaction ids increase, the merge-join of the lists of X and [y]
      is the list of X + [y]. */
  lemma {:induction false} JoinListFor(rev: seq<RevTxn>, X: seq<Item>, y: Item)
    requires |X| > 0 && AllAligned(rev) && TidsIncreasing(rev)
    ensures Join(ListFor(rev, X), ListFor(rev, [y])) == ListFor(rev, X + [y])
  {
    if |rev| > 0 {
      var rt := rev[0];
      var rest := rev[1..];
      AllAlignedTail(rev);
      assert TidsIncreasing(rest) by {
        forall i, j | 0 <= i < j < |rest| ensures rest[i].tid < rest[j].tid {
          assert rest[i] == rev[i + 1] && rest[j] == rev[j + 1];
        }
      }
      forall k | 0 <= k < |rest| ensures rest[k].tid > rt.tid {
        assert rest[k] == rev[k + 1];
      }
      JoinListFor(rest, X, y);
      ListForTidsAbove(rest, X, rt.tid);
      ListForTidsAbove(rest, [y], rt.tid);
      JoinHead(rev, X, y);
    }
  }

  lemma JoinBoth(ea: Entry, a: seq<Entry>, eb: Entry, b: seq<Entry>)
    requires ea.tid == eb.tid
    ensures Join([ea] + a, [eb] + b) == [Entry(ea.tid, ea.iutil + eb.iutil, eb.rutil)] + Join(a, b)
  {
    assert ([ea] + a)[1..] == a && ([eb] + b)[1..] == b;
  }

  lemma JoinSkipFirst(ea: Entry, a: seq<Entry>, b: seq<Entry>)
    requires forall e :: e in b ==> e.tid > ea.tid
    ensures Join([ea] + a, b) == Join(a, b)
  {
    assert ([ea] + a)[1..] == a;
    if |b| > 0 {
      assert b[0] in b;
    }
  }

  lemma JoinSkipSecond(a: seq<Entry>, eb: Entry, b: seq<Entry>)
    requires forall e :: e in a ==> e.tid > eb.tid
    ensures Join(a, [eb] + b) == Join(a, b)
  {
    assert ([eb] + b)[1..] == b;
    if |a| > 0 {
      assert a[0] in a;
    }
  }

  /** The entry the head transaction puts in the list of X, if any. */
  function HeadEntry(rt: RevTxn, X: seq<Item>): seq<Entry>
    requires |X| > 0 && Aligned(rt)
  {
    if ContainsR(rt, X) then [Entry(rt.tid, UtilInR(rt, X), Remaining(rt, X[|X| - 1]))] else []
  }

  lemma ListForHead(rev: seq<RevTxn>, X: seq<Item>)
    requires |X| > 0 && AllAligned(rev) && |rev| > 0
    ensures AllAligned(rev[1..]) && Aligned(rev[0])
    ensures ListFor(rev, X) == HeadEntry(rev[0], X) + ListFor(rev[1..], X)
  {
    AllAlignedTail(rev);
  }

  /** What the merge-join makes of two head entries (at most one each) at
      tid t: one combined entry when both are there. */
  function Combined(t: nat, hx: seq<Entry>, hy: seq<Entry>): seq<Entry> {
    if hx != [] && hy != [] then [Entry(t, hx[0].iutil + hy[0].iutil, hy[0].rutil)] else []
  }

  /** The merge-join of two lists whose heads (if any) share the tid t and
      whose tails lie above t. */
  lemma JoinHeads(t: nat, hx: seq<Entry>, a: seq<Entry>, hy: seq<Entry>, b: seq<Entry>)
    requires |hx| <= 1 && |hy| <= 1
    requires (hx != [] ==> hx[0].tid == t) && (hy != [] ==> hy[0].tid == t)
    requires (forall e :: e in a ==> e.tid > t) && (forall e :: e in b ==> e.tid > t)
    ensures Join(hx + a, hy + b) == Combined(t, hx, hy) + Join(a, b)
  {
    if hx != [] && hy != [] {
      assert hx == [hx[0]] && hy == [hy[0]];
      JoinBoth(hx[0], a, hy[0], b);
    } else if hx != [] {
      assert hx == [hx[0]] && hy + b == b;
      JoinSkipFirst(hx[0], a, b);
    } else if hy != [] {
      assert hy == [hy[0]] && hx + a == a;
      JoinSkipSecond(a, hy[0], b);
    } else {
      assert hx + a == a && hy + b == b;
    }
  }

  /** The head entry of X + [y] combines those of X and [y]. */
  lemma HeadExtend(rt: RevTxn, X: seq<Item>, y: Item)
    requires |X| > 0 && Aligned(rt)
    ensures HeadEntry(rt, X + [y]) == if ContainsR(rt, X) && ContainsR(rt, [y])
      then [Entry(rt.tid, UtilInR(rt, X) + UtilInR(rt, [y]), Remaining(rt, y))]
      else []
  {
    var XY := X + [y];
    assert XY[|XY| - 1] == y;
    assert y in [y] && y in XY;
    assert ContainsR(rt, XY) <==> ContainsR(rt, X) && ContainsR(rt, [y]);
    SumOfAppend(Zip(rt.items, rt.utils), X, [y]);
  }

  /** One step of the merge-join: the head transaction either contributes
      the combined entry or is skipped in whichever list holds it. */
  lemma JoinHead(rev: seq<RevTxn>, X: seq<Item>, y: Item)
    requires |X| > 0 && AllAligned(rev) && |rev| > 0
    requires AllAligned(rev[1..])
    requires forall e :: e in ListFor(rev[1..], X) ==> e.tid > rev[0].tid
    requires forall e :: e in ListFor(rev[1..], [y]) ==> e.tid > rev[0].tid
    requires Join(ListFor(rev[1..], X), ListFor(rev[1..], [y])) == ListFor(rev[1..], X + [y])
    ensures Join(ListFor(rev, X), ListFor(rev, [y])) == ListFor(rev, X + [y])
  {
    var rt := rev[0];
    var a, b := ListFor(rev[1..], X), ListFor(rev[1..], [y]);
    var hx, hy := HeadEntry(rt, X), HeadEntry(rt, [y]);
    ListForHead(rev, X);
    ListForHead(rev, [y]);
    ListForHead(rev, X + [y]);
    HeadCombined(rt, X, y);
    JoinHeads(rt.tid, hx, a, hy, b);
    calc {
      Join(ListFor(rev, X), ListFor(rev, [y]));
      Join(hx + a, hy + b);
      Combined(rt.tid, hx, hy) + Join(a, b);
      HeadEntry(rt, X + [y]) + ListFor(rev[1..], X + [y]);
    }
  }

  /** The entry the merge-join builds from the head entries of X and [y] is
      the head entry of X + [y]. */
  lemma HeadCombined(rt: RevTxn, X: seq<Item>, y: Item)
    requires |X| > 0 && Aligned(rt)
    ensures |HeadEntry(rt, X)| <= 1 && |HeadEntry(rt, [y])| <= 1
    ensures HeadEntry(rt, X) != [] ==> HeadEntry(rt, X)[0].tid == rt.tid
    ensures HeadEntry(rt, [y]) != [] ==> HeadEntry(rt, [y])[0].tid == rt.tid
    ensures Combined(rt.tid, HeadEntry(rt, X), HeadEntry(rt, [y])) == HeadEntry(rt, X + [y])
  {
    HeadExtend(rt, X, y);
  }

  // ---------------------------------------------------------------------
  // The search emits exact utilities

  /** X lists ranked items in strictly increasing rank: an itemset as the
      search builds it. */
  predicate Ranked(ord: map<Item, nat>, X: seq<Item>) {
    && (forall x :: x in X ==> x in ord)
    && forall i, j :: 0 <= i < j < |X| ==> Rank(ord, X[i]) < Rank(ord, X[j])
  }

  predicate Below(ord: map<Item, nat>, X: seq<Item>, n: int) {
    forall x :: x in X ==> Rank(ord, x) < n
  }

  /** What the search relies on: the promising items without repeats and
      their positions, well-shaped revised transactions in tid order, and the
      single-item lists equal to the exact lists. */
  ghost predicate Good(c: Ctx, rev: seq<RevTxn>) {
    Indexed(c) && RevisedOk(c.ord, rev) && ListsExact(c, rev)
  }

  /** ord gives each promising item its position, and nothing else. */
  predicate Indexed(c: Ctx) {
    && Distinct(c.P)
    && (forall k :: 0 <= k < |c.P| ==> c.P[k] in c.ord && c.ord[c.P[k]] == k)
    && (forall x :: x in c.ord ==> c.ord[x] < |c.P| && c.P[c.ord[x]] == x)
  }

  /** Well-shaped revised transactions in increasing tid order. */
  predicate RevisedOk(ord: map<Item, nat>, rev: seq<RevTxn>) {
    && AllAligned(rev) && TidsIncreasing(rev)
    && (forall k :: 0 <= k < |rev| ==> Shaped(ord, rev[k]))
  }

  ghost predicate ListsExact(c: Ctx, rev: seq<RevTxn>) {
    forall x :: ListAgrees(c, rev, x)
  }

  /** The single-item list the context holds for x is the exact one. */
  predicate ListAgrees(c: Ctx, rev: seq<RevTxn>, x: Item) {
    AllAligned(rev) && ListOf(c.lists, x) == ListFor(rev, [x])
  }

  /** A call `search(prefix, ul, start)` as the miner makes it: a nonempty
      ranked prefix whose items all precede position start, with its exact
      list, which is nonempty. */
  predicate Node(c: Ctx, rev: seq<RevTxn>, prefix: seq<Item>, ul: seq<Entry>, start: nat) {
    && start <= |c.P| && |prefix| > 0 && AllAligned(rev)
    && Ranked(c.ord, prefix) && Below(c.ord, prefix, start)
    && ul == ListFor(rev, prefix) && ul != []
  }

  /** An emitted pair is a ranked itemset that occurs, with its exact utility,
      at or above the threshold. */
  predicate Sound(c: Ctx, rev: seq<RevTxn>, e: Found) {
    && AllAligned(rev) && |e.0| > 0 && Ranked(c.ord, e.0)
    && ListFor(rev, e.0) != [] && e.1 == SumIu(ListFor(rev, e.0)) && e.1 >= c.minUtil
  }

  lemma RankedSnoc(c: Ctx, prefix: seq<Item>, idx: nat)
    requires idx < |c.P| && c.P[idx] in c.ord && c.ord[c.P[idx]] == idx
    requires Ranked(c.ord, prefix) && Below(c.ord, prefix, idx)
    ensures Ranked(c.ord, prefix + [c.P[idx]]) && Below(c.ord, prefix + [c.P[idx]], idx + 1)
  {
    var p2 := prefix + [c.P[idx]];
    forall i, j | 0 <= i < j < |p2| ensures Rank(c.ord, p2[i]) < Rank(c.ord, p2[j]) {
      assert p2[i] == prefix[i];
      if j < |prefix| {
        assert p2[j] == prefix[j];
      } else {
        assert prefix[i] in prefix;
      }
    }
  }

  lemma PrefixOfPrefix(s: seq<Item>, prefix: seq<Item>, y: Item)
    requires |s| >= |prefix| + 1 && s[..|prefix| + 1] == prefix + [y]
    ensures |s| > |prefix| && s[..|prefix|] == prefix && s[|prefix|] == y
  {
    assert s[..|prefix|] == s[..|prefix| + 1][..|prefix|];
    assert s[|prefix|] == s[..|prefix| + 1][|prefix|];
  }

  // Single unfoldings of the search functions, kept apart so that the
  // proofs below do not unfold them in a larger context.

  lemma SearchUnfold(c: Ctx, prefix: seq<Item>, ul: seq<Entry>, start: nat)
    requires start <= |c.P| && SumIuRu(ul) >= c.minUtil
    ensures SearchSpec(c, prefix, ul, start)
      == (if |prefix| > 0 && SumIu(ul) >= c.minUtil then [(prefix, SumIu(ul))] else []) + Extend(c, prefix, ul, start)
  {
  }

  lemma ExtendUnfold(c: Ctx, prefix: seq<Item>, ul: seq<Entry>, idx: nat)
    requires idx < |c.P|
    ensures Extend(c, prefix, ul, idx) == Branch(c, prefix, ul, idx) + Extend(c, prefix, ul, idx + 1)
  {
  }

  lemma BranchUnfold(c: Ctx, prefix: seq<Item>, ul: seq<Entry>, idx: nat)
    requires idx < |c.P| && ListOf(c.lists, c.P[idx]) != [] && Join(ul, ListOf(c.lists, c.P[idx])) != []
    ensures Branch(c, prefix, ul, idx)
      == SearchSpec(c, prefix + [c.P[idx]], Join(ul, ListOf(c.lists, c.P[idx])), idx + 1)
  {
  }

  lemma TopBranchUnfold(c: Ctx, idx: nat)
    requires idx < |c.P| && ListOf(c.lists, c.P[idx]) != [] && SumIuRu(ListOf(c.lists, c.P[idx])) >= c.minUtil
    ensures TopBranch(c, idx) == SearchSpec(c, [c.P[idx]], ListOf(c.lists, c.P[idx]), idx + 1)
  {
  }

  lemma SearchPruned(c: Ctx, prefix: seq<Item>, ul: seq<Entry>, start: nat)
    requires start <= |c.P| && SumIuRu(ul) < c.minUtil
    ensures SearchSpec(c, prefix, ul, start)
      == if |prefix| > 0 && SumIu(ul) >= c.minUtil then [(prefix, SumIu(ul))] else []
  {
  }

  lemma SearchHere(c: Ctx, prefix: seq<Item>, ul: seq<Entry>, start: nat)
    requires start <= |c.P| && |prefix| > 0 && SumIu(ul) >= c.minUtil
    ensures (prefix, SumIu(ul)) in SearchSpec(c, prefix, ul, start)
  {
  }

  lemma {:induction false} SearchSound(c: Ctx, rev: seq<RevTxn>, prefix: seq<Item>, ul: seq<Entry>, start: nat)
    requires Good(c, rev) && Node(c, rev, prefix, ul, start)
    ensures forall e :: e in SearchSpec(c, prefix, ul, start) ==> Sound(c, rev, e)
    decreases |c.P| - start, 2
  {
    var total := SumIu(ul);
    var here := if |prefix| > 0 && total >= c.minUtil then [(prefix, total)] else [];
    assert forall e :: e in here ==> Sound(c, rev, e);
    if SumIuRu(ul) >= c.minUtil {
      ExtendSound(c, rev, prefix, ul, start);
      SearchUnfold(c, prefix, ul, start);
    } else {
      SearchPruned(c, prefix, ul, start);
    }
  }

  lemma {:induction false} ExtendSound(c: Ctx, rev: seq<RevTxn>, prefix: seq<Item>, ul: seq<Entry>, idx: nat)
    requires Good(c, rev) && Node(c, rev, prefix, ul, idx)
    ensures forall e :: e in Extend(c, prefix, ul, idx) ==> Sound(c, rev, e)
    decreases |c.P| - idx, 1
  {
    if idx < |c.P| {
      BranchSound(c, rev, prefix, ul, idx);
      ExtendSound(c, rev, prefix, ul, idx + 1);
      ExtendUnfold(c, prefix, ul, idx);
    }
  }

  lemma {:induction false} BranchSound(c: Ctx, rev: seq<RevTxn>, prefix: seq<Item>, ul: seq<Entry>, idx: nat)
    requires Good(c, rev) && Node(c, rev, prefix, ul, idx) && idx < |c.P|
    ensures forall e :: e in Branch(c, prefix, ul, idx) ==> Sound(c, rev, e)
    decreases |c.P| - idx, 0
  {
    var y := c.P[idx];
    var ulItem := ListOf(c.lists, y);
    if ulItem != [] {
      assert ListAgrees(c, rev, y);
      JoinListFor(rev, prefix, y);
      var nu := Join(ul, ulItem);
      if nu != [] {
        RankedSnoc(c, prefix, idx);
        SearchSound(c, rev, prefix + [y], nu, idx + 1);
        BranchUnfold(c, prefix, ul, idx);
      }
    }
  }

  lemma TopBranchSound(c: Ctx, rev: seq<RevTxn>, idx: nat)
    requires Good(c, rev) && idx < |c.P|
    ensures forall e :: e in TopBranch(c, idx) ==> Sound(c, rev, e)
  {
    var y := c.P[idx];
    var ulItem := ListOf(c.lists, y);
    if ulItem != [] && SumIuRu(ulItem) >= c.minUtil {
      assert ListAgrees(c, rev, y);
      RankedSnoc(c, [], idx);
      assert [] + [y] == [y];
      SearchSound(c, rev, [y], ulItem, idx + 1);
      TopBranchUnfold(c, idx);
    }
  }

  /** What holds of every pass of the top-level loop holds of its output. */
  lemma {:induction false} TopAll(c: Ctx, n: nat, P: Found -> bool)
    requires n <= |c.P|
    requires forall idx :: 0 <= idx < n ==> forall e :: e in TopBranch(c, idx) ==> P(e)
    ensures forall e :: e in TopSpec(c, n) ==> P(e)
  {
    if n > 0 {
      TopAll(c, n - 1, P);
      TopUnfold(c, n);
    }
  }

  /** Every pair the top-level loop emits is sound. */
  lemma TopSound(c: Ctx, rev: seq<RevTxn>)
    requires Good(c, rev)
    ensures forall e :: e in TopSpec(c, |c.P|) ==> Sound(c, rev, e)
  {
    forall idx | 0 <= idx < |c.P| ensures forall e :: e in TopBranch(c, idx) ==> Sound(c, rev, e) {
      TopBranchSound(c, rev, idx);
    }
    TopAll(c, |c.P|, e => Sound(c, rev, e));
  }

  lemma TopUnfold(c: Ctx, n: nat)
    requires 0 < n <= |c.P|
    ensures TopSpec(c, n) == TopSpec(c, n - 1) + TopBranch(c, n - 1)
  {
  }
}
