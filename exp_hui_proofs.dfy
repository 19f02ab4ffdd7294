/** What the steps of experiments/hui.py before the search compute: revise
    turns each well-formed line into a revised transaction in strictly
    increasing (TWU, item) order that gives every kept item its utility;
    build_utility_lists gives every item of the revised transactions its
    exact single-item list; and `construct` applied to the lists of P + [x]
    and P + [y] (and of P) yields the exact list of P + [x, y]. */
module ExpHuiProofs {
  import opened Db
  import opened Ordering
  import opened UtilityLists
  import opened ExpHui

  // ---------------------------------------------------------------------
  // The order revise puts items in

  /** The key of `order`: an item's TWU, ties by the item. */
  function Key(twu: map<Item, int>, x: Item): (int, int) {
    (Get(twu, x), x)
  }

  /** Items in strictly increasing (TWU, item) order. */
  predicate Chain(twu: map<Item, int>, s: seq<Item>) {
    forall i, j :: 0 <= i < j < |s| ==> KeyLt(Key(twu, s[i]), Key(twu, s[j]))
  }

  /** A revised transaction as revise builds it from a well-formed line:
      aligned, nonnegative utilities, only kept items, in strictly
      increasing order. */
  predicate Shaped(twu: map<Item, int>, minUtil: int, rt: RevTxn) {
    && Proper(rt) && Chain(twu, rt.items)
    && forall x :: x in rt.items ==> x in Kept(twu, minUtil)
  }

  predicate AllShaped(twu: map<Item, int>, minUtil: int, rev: seq<RevTxn>) {
    forall k :: 0 <= k < |rev| ==> Shaped(twu, minUtil, rev[k])
  }

  predicate NoDup<T(==)>(s: seq<T>) {
    forall i, j :: 0 <= i < j < |s| ==> s[i] != s[j]
  }

  /** No item is the first component of two pairs. */
  predicate FirstsDistinct<V>(ps: seq<(Item, V)>) {
    forall i, j :: 0 <= i < j < |ps| ==> ps[i].0 != ps[j].0
  }

  lemma Chained(twu: map<Item, int>, s: seq<Item>)
    requires Chain(twu, s)
    ensures Distinct(s)
  {
    forall i, j | 0 <= i < j < |s| ensures s[i] != s[j] {
      assert KeyLt(Key(twu, s[i]), Key(twu, s[j]));
    }
  }

  lemma {:induction false} NoDupCount<T>(s: seq<T>, x: T)
    requires NoDup(s)
    ensures multiset(s)[x] <= 1
  {
    if |s| > 0 {
      var rest := s[1..];
      assert NoDup(rest) by {
        forall a, b | 0 <= a < b < |rest| ensures rest[a] != rest[b] {
          assert rest[a] == s[a + 1] && rest[b] == s[b + 1];
        }
      }
      NoDupCount(rest, x);
      assert s == [s[0]] + rest;
      if s[0] == x {
        forall j | 0 <= j < |rest| ensures rest[j] != x {
          assert rest[j] == s[j + 1];
        }
        assert x !in multiset(rest);
      }
    }
  }

  /** A rearrangement of a sequence without repeats has no repeats. */
  lemma NoDupPerm<T>(a: seq<T>, b: seq<T>)
    requires multiset(a) == multiset(b) && NoDup(b)
    ensures NoDup(a)
  {
    forall i, j | 0 <= i < j < |a| ensures a[i] != a[j] {
      if a[i] == a[j] {
        assert a == a[..j] + a[j..];
        assert a[..j][i] == a[i] && a[j..][0] == a[i];
        assert multiset(a) == multiset(a[..j]) + multiset(a[j..]);
        NoDupCount(b, a[i]);
      }
    }
  }

  // ---------------------------------------------------------------------
  // One line

  lemma {:induction false} KeepPairsFirsts(ps: seq<Pair>, kept: set<Item>)
    requires FirstsDistinct(ps)
    ensures FirstsDistinct(KeepPairs(ps, kept))
  {
    if |ps| > 0 {
      var rest := ps[1..];
      assert FirstsDistinct(rest) by {
        forall a, b | 0 <= a < b < |rest| ensures rest[a].0 != rest[b].0 {
          assert rest[a] == ps[a + 1] && rest[b] == ps[b + 1];
        }
      }
      KeepPairsFirsts(rest, kept);
      var tail := KeepPairs(rest, kept);
      forall p | p in tail ensures p.0 != ps[0].0 {
        var j :| 0 <= j < |rest| && rest[j] == p;
        assert rest[j] == ps[j + 1];
      }
      if ps[0].0 in kept {
        FirstsCons(ps[0], tail);
      }
    }
  }

  /** A pair whose first component no later pair has, put in front. */
  lemma FirstsCons(p: Pair, tail: seq<Pair>)
    requires FirstsDistinct(tail) && forall q :: q in tail ==> q.0 != p.0
    ensures FirstsDistinct([p] + tail)
  {
    var r := [p] + tail;
    forall i, j | 0 <= i < j < |r| ensures r[i].0 != r[j].0 {
      assert r[j] == tail[j - 1];
      if i == 0 {
        assert r[j] in tail;
      } else {
        assert r[i] == tail[i - 1];
      }
    }
  }

  /** The sorted kept pairs of a simple line: the line's own pairs whose
      item is kept, each once, no item twice. */
  lemma FilteredPairs(t: Txn, twu: map<Item, int>, minUtil: int)
    requires Simple(t)
    ensures var f := Filtered(t, twu, minUtil);
      && FirstsDistinct(f)
      && SortedBy(f, OrderKey(twu))
      && (forall p :: p in f <==> p in ZipPairs(t.items, t.utils) && p.0 in Kept(twu, minUtil))
  {
    var kept := Kept(twu, minUtil);
    var zs := ZipPairs(t.items, t.utils);
    var ks := KeepPairs(zs, kept);
    var f := SortBy(ks, OrderKey(twu));
    assert FirstsDistinct(zs);
    KeepPairsFirsts(zs, kept);
    PermFirsts(f, ks);
  }

  /** A rearrangement of pairs with distinct items has the same pairs and
      distinct items. */
  lemma PermFirsts<V>(f: seq<(Item, V)>, ks: seq<(Item, V)>)
    requires multiset(f) == multiset(ks) && FirstsDistinct(ks)
    ensures FirstsDistinct(f)
    ensures forall p :: p in f <==> p in ks
  {
    NoDupPerm(f, ks);
    forall p ensures p in f <==> p in ks {
      assert p in f <==> p in multiset(f);
      assert p in ks <==> p in multiset(ks);
    }
    forall i, j | 0 <= i < j < |f| ensures f[i].0 != f[j].0 {
      assert f[i] != f[j];
      assert f[i] in ks && f[j] in ks;
      var a :| 0 <= a < |ks| && ks[a] == f[i];
      var b :| 0 <= b < |ks| && ks[b] == f[j];
      assert a != b;
    }
  }

  /** The revised transaction of a well-formed line holds exactly its kept
      items, in strictly increasing order, with the line's utilities. */
  lemma FilteredShape(t: Txn, tid: nat, twu: map<Item, int>, minUtil: int)
    requires Plain(t)
    ensures var f := Filtered(t, twu, minUtil); var rt := RevTxn(tid, Firsts(f), Seconds(f));
      && Shaped(twu, minUtil, rt)
      && (forall x :: x in rt.items <==> x in t.items && x in Kept(twu, minUtil))
      && (forall x :: x in rt.items ==> x in Dict(t) && Zip(rt.items, rt.utils)[x] == Dict(t)[x])
  {
    var f := Filtered(t, twu, minUtil);
    FilteredPairs(t, twu, minUtil);
    PairsChain(f, twu, tid);
    PairsKept(t, f, Kept(twu, minUtil), tid);
    PairsUtil(t, f, Kept(twu, minUtil), tid);
  }

  /** Pairs sorted by the order key with distinct items give a chain. */
  lemma PairsChain(f: seq<Pair>, twu: map<Item, int>, tid: nat)
    requires FirstsDistinct(f) && SortedBy(f, OrderKey(twu))
    ensures Chain(twu, Firsts(f)) && Distinct(Firsts(f)) && Aligned(RevTxn(tid, Firsts(f), Seconds(f)))
  {
    var items := Firsts(f);
    forall i, j | 0 <= i < j < |items| ensures KeyLt(Key(twu, items[i]), Key(twu, items[j])) {
      assert KeyLe(OrderKey(twu)(f[i]), OrderKey(twu)(f[j]));
    }
    Chained(twu, items);
  }

  /** The kept pairs of a line: kept items, the line's utilities. */
  lemma PairsKept(t: Txn, f: seq<Pair>, kept: set<Item>, tid: nat)
    requires Plain(t)
    requires forall p :: p in f <==> p in ZipPairs(t.items, t.utils) && p.0 in kept
    ensures Nonneg(Seconds(f))
    ensures forall x :: x in Firsts(f) <==> x in t.items && x in kept
  {
    var zs := ZipPairs(t.items, t.utils);
    var items, utils := Firsts(f), Seconds(f);
    forall k | 0 <= k < |utils| ensures utils[k] >= 0 {
      assert f[k] in zs;
      var m :| 0 <= m < |zs| && zs[m] == f[k];
    }
    forall x ensures x in items <==> x in t.items && x in kept {
      if x in t.items && x in kept {
        var m :| 0 <= m < |t.items| && t.items[m] == x;
        assert zs[m] in f;
        var k :| 0 <= k < |f| && f[k] == zs[m];
        assert items[k] == x;
      }
      if x in items {
        var k :| 0 <= k < |items| && items[k] == x;
        assert f[k] in zs;
      }
    }
  }

  /** The kept pairs give each item the utility the line's dictionary gives it. */
  lemma PairsUtil(t: Txn, f: seq<Pair>, kept: set<Item>, tid: nat)
    requires Plain(t) && FirstsDistinct(f)
    requires forall p :: p in f <==> p in ZipPairs(t.items, t.utils) && p.0 in kept
    ensures forall x :: x in Firsts(f) ==> x in Dict(t) && Zip(Firsts(f), Seconds(f))[x] == Dict(t)[x]
  {
    var zs := ZipPairs(t.items, t.utils);
    var items, utils := Firsts(f), Seconds(f);
    assert Distinct(items);
    forall x | x in items ensures x in Dict(t) && Zip(items, utils)[x] == Dict(t)[x] {
      var k :| 0 <= k < |items| && items[k] == x;
      assert f[k] in zs;
      var m :| 0 <= m < |zs| && zs[m] == f[k];
      ZipAt(items, utils, k);
      ZipAt(t.items, t.utils, m);
    }
  }

  /** A revised transaction gives an itemset it holds the utility the line gives it. */
  lemma FilteredUtil(t: Txn, tid: nat, twu: map<Item, int>, minUtil: int, X: seq<Item>)
    requires Plain(t)
    requires var f := Filtered(t, twu, minUtil); ContainsR(RevTxn(tid, Firsts(f), Seconds(f)), X)
    ensures var f := Filtered(t, twu, minUtil); var rt := RevTxn(tid, Firsts(f), Seconds(f));
      Contains(t, X) && UtilInR(rt, X) == UtilIn(t, X)
  {
    var f := Filtered(t, twu, minUtil);
    var rt := RevTxn(tid, Firsts(f), Seconds(f));
    FilteredShape(t, tid, twu, minUtil);
    SumOfAgree(Zip(rt.items, rt.utils), Dict(t), X);
  }

  // ---------------------------------------------------------------------
  // The revised database

  lemma ReviseSnoc(db: seq<Txn>, twu: map<Item, int>, minUtil: int)
    requires |db| > 0
    ensures var n := |db| - 1; var f := Filtered(db[n], twu, minUtil);
      Revise(Numbered(db), twu, minUtil)
      == Revise(Numbered(db[..n]), twu, minUtil) + (if f == [] then [] else [RevTxn(n, Firsts(f), Seconds(f))])
  {
    var n := |db| - 1;
    assert Numbered(db)[..n] == Numbered(db[..n]);
  }

  /** Appending at most one shaped transaction with a larger id than all
      before it keeps the revised database shaped and in id order. */
  lemma ShapeSnoc(twu: map<Item, int>, minUtil: int, r0: seq<RevTxn>, tail: seq<RevTxn>, n: nat)
    requires AllShaped(twu, minUtil, r0) && TidsIncreasing(r0)
    requires forall k :: 0 <= k < |r0| ==> r0[k].tid < n
    requires |tail| <= 1 && forall k :: 0 <= k < |tail| ==> Shaped(twu, minUtil, tail[k]) && tail[k].tid == n
    ensures var rev := r0 + tail;
      && AllShaped(twu, minUtil, rev) && AllProper(rev) && TidsIncreasing(rev)
      && forall k :: 0 <= k < |rev| ==> rev[k].tid < n + 1
  {
    var rev := r0 + tail;
    forall k | 0 <= k < |rev| ensures Shaped(twu, minUtil, rev[k]) && rev[k].tid < n + 1 {
      if k < |r0| {
        assert rev[k] == r0[k];
      } else {
        assert rev[k] == tail[k - |r0|];
      }
    }
    forall i, j | 0 <= i < j < |rev| ensures rev[i].tid < rev[j].tid {
      assert rev[i] == r0[i];
      if j < |r0| {
        assert rev[j] == r0[j];
      } else {
        assert rev[j] == tail[j - |r0|];
      }
    }
  }

  /** Revising a well-formed database gives shaped transactions whose ids,
      the line numbers, strictly increase. */
  lemma {:induction false} ReviseShape(db: seq<Txn>, twu: map<Item, int>, minUtil: int)
    requires PlainDb(db)
    ensures var rev := Revise(Numbered(db), twu, minUtil);
      && AllShaped(twu, minUtil, rev) && AllProper(rev) && TidsIncreasing(rev)
      && forall k :: 0 <= k < |rev| ==> rev[k].tid < |db|
  {
    var rev := Revise(Numbered(db), twu, minUtil);
    if |db| > 0 {
      var n := |db| - 1;
      PlainInit(db);
      ReviseShape(db[..n], twu, minUtil);
      ReviseSnoc(db, twu, minUtil);
      var r0 := Revise(Numbered(db[..n]), twu, minUtil);
      var f := Filtered(db[n], twu, minUtil);
      FilteredShape(db[n], n, twu, minUtil);
      ShapeSnoc(twu, minUtil, r0, if f == [] then [] else [RevTxn(n, Firsts(f), Seconds(f))], n);
    }
  }

  /** A line without kept items contains no itemset of kept items. */
  lemma NoneKept(t: Txn, twu: map<Item, int>, minUtil: int, X: seq<Item>)
    requires Plain(t) && |X| > 0 && forall x :: x in X ==> x in Kept(twu, minUtil)
    requires Filtered(t, twu, minUtil) == []
    ensures !Contains(t, X)
  {
    FilteredShape(t, 0, twu, minUtil);
    assert X[0] in X;
    assert X[0] !in t.items;
  }

  /** The entry the last line's revised transaction puts in the list of X. */
  lemma LastEntry(t: Txn, n: nat, twu: map<Item, int>, minUtil: int, X: seq<Item>)
    requires Plain(t) && |X| > 0 && forall x :: x in X ==> x in Kept(twu, minUtil)
    ensures var f := Filtered(t, twu, minUtil); var rt := RevTxn(n, Firsts(f), Seconds(f));
      && AllAligned([rt])
      && (|ListFor([rt], X)| > 0 <==> Contains(t, X))
      && SumIu(ListFor([rt], X)) == if Contains(t, X) then UtilIn(t, X) else 0
  {
    var f := Filtered(t, twu, minUtil);
    var rt := RevTxn(n, Firsts(f), Seconds(f));
    FilteredShape(t, n, twu, minUtil);
    assert ContainsR(rt, X) <==> Contains(t, X);
    assert [rt][1..] == [];
    if ContainsR(rt, X) {
      FilteredUtil(t, n, twu, minUtil, X);
    }
  }

  /** The last line's contribution to the list of X. */
  lemma ReviseStep(db: seq<Txn>, twu: map<Item, int>, minUtil: int, X: seq<Item>)
    requires PlainDb(db) && |db| > 0 && |X| > 0 && forall x :: x in X ==> x in Kept(twu, minUtil)
    ensures var n := |db| - 1; var rev, r0 := Revise(Numbered(db), twu, minUtil), Revise(Numbered(db[..n]), twu, minUtil);
      && SumIu(ListFor(rev, X)) == SumIu(ListFor(r0, X)) + (if Contains(db[n], X) then UtilIn(db[n], X) else 0)
      && (|ListFor(rev, X)| > 0 <==> |ListFor(r0, X)| > 0 || Contains(db[n], X))
  {
    var n := |db| - 1;
    PlainInit(db);
    ReviseSnoc(db, twu, minUtil);
    var r0 := Revise(Numbered(db[..n]), twu, minUtil);
    var f := Filtered(db[n], twu, minUtil);
    var tail := if f == [] then [] else [RevTxn(n, Firsts(f), Seconds(f))];
    if f == [] {
      NoneKept(db[n], twu, minUtil, X);
    } else {
      LastEntry(db[n], n, twu, minUtil, X);
    }
    ListStep(r0, tail, X, Contains(db[n], X), UtilIn(db[n], X));
    assert Revise(Numbered(db), twu, minUtil) == r0 + tail;
  }

  lemma ListStep(r0: seq<RevTxn>, tail: seq<RevTxn>, X: seq<Item>, c: bool, u: int)
    requires |X| > 0 && AllAligned(r0) && AllAligned(tail)
    requires |ListFor(tail, X)| > 0 <==> c
    requires SumIu(ListFor(tail, X)) == if c then u else 0
    ensures AllAligned(r0 + tail)
    ensures SumIu(ListFor(r0 + tail, X)) == SumIu(ListFor(r0, X)) + (if c then u else 0)
    ensures |ListFor(r0 + tail, X)| > 0 <==> |ListFor(r0, X)| > 0 || c
  {
    ListForAppend(r0, tail, X);
    SumIuAppend(ListFor(r0, X), ListFor(tail, X));
  }

  /** The list of an itemset of kept items over the revised database sums to
      its utility in the database, and is nonempty exactly when it occurs. */
  lemma {:induction false} ReviseFaithful(db: seq<Txn>, twu: map<Item, int>, minUtil: int, X: seq<Item>)
    requires PlainDb(db) && |X| > 0 && forall x :: x in X ==> x in Kept(twu, minUtil)
    ensures SumIu(ListFor(Revise(Numbered(db), twu, minUtil), X)) == Utility(X, db)
    ensures ListFor(Revise(Numbered(db), twu, minUtil), X) != [] <==> Occurs(X, db)
  {
    if |db| > 0 {
      var n := |db| - 1;
      PlainInit(db);
      ReviseFaithful(db[..n], twu, minUtil, X);
      OccursSnoc(X, db);
      ReviseStep(db, twu, minUtil, X);
      Nonempty(ListFor(Revise(Numbered(db), twu, minUtil), X));
      Nonempty(ListFor(Revise(Numbered(db[..n]), twu, minUtil), X));
    }
  }

  lemma Nonempty(s: seq<Entry>)
    ensures s != [] <==> |s| > 0
  {
  }

  // ---------------------------------------------------------------------
  // The dictionary of lists

  /** After the first n positions of rt, y has a list when it had one or
      occurs there, and its list has gained its entries there. */
  lemma {:induction false} AppendRowAt(t: Table, rt: RevTxn, n: nat, y: Item)
    requires TableOk(t) && Aligned(rt) && n <= |rt.items|
    ensures var r := AppendRow(t, rt, n);
      && (y in r.lists <==> y in t.lists || y in rt.items[..n])
      && (y in r.lists ==> r.lists[y] == (if y in t.lists then t.lists[y] else []) + OccUpTo(rt, y, n))
  {
    if n > 0 {
      AppendRowAt(t, rt, n - 1, y);
      var r0 := AppendRow(t, rt, n - 1);
      var x := rt.items[n - 1];
      var e := Entry(rt.tid, rt.utils[n - 1], Sum(rt.utils[n..]));
      AppendToAt(r0, x, e, y);
      SliceSnoc(rt.items, n, y);
      var base: seq<Entry> := if y in t.lists then t.lists[y] else [];
      var extra := if x == y then [e] else [];
      if y !in r0.lists {
        OccUpToEmpty(rt, y, n - 1);
      }
      AppendAssoc(base, OccUpTo(rt, y, n - 1), extra);
    }
  }

  lemma SliceSnoc(s: seq<Item>, n: nat, y: Item)
    requires 0 < n <= |s|
    ensures y in s[..n] <==> y in s[..n - 1] || y == s[n - 1]
  {
    assert s[..n] == s[..n - 1] + [s[n - 1]];
  }

  lemma AppendAssoc(a: seq<Entry>, b: seq<Entry>, c: seq<Entry>)
    ensures a + b + c == a + (b + c)
  {
  }

  lemma AppendToAt(t: Table, x: Item, e: Entry, y: Item)
    requires TableOk(t)
    ensures var r := AppendTo(t, x, e);
      && (y in r.lists <==> y in t.lists || y == x)
      && (y in r.lists ==> r.lists[y] == (if y in t.lists then t.lists[y] else []) + (if y == x then [e] else []))
  {
  }

  /** `build_utility_lists` gives each item of the revised transactions the
      entries appended for it, and no other item a list. */
  lemma {:induction false} BuildSpec(rev: seq<RevTxn>)
    requires AllAligned(rev)
    ensures var t := BuildUtilityLists(rev);
      && (forall y :: y in t.lists <==> y in ItemsOfRev(rev))
      && (forall y :: y in t.lists ==> t.lists[y] == Occurrences(rev, y))
  {
    if |rev| > 0 {
      var n := |rev| - 1;
      AllAlignedPrefix(rev, n);
      BuildSpec(rev[..n]);
      var t := BuildUtilityLists(rev);
      forall y ensures (y in t.lists <==> y in ItemsOfRev(rev)) && (y in t.lists ==> t.lists[y] == Occurrences(rev, y)) {
        BuildAt(rev, y);
      }
    }
  }

  /** One more revised transaction, for one item: its list gains the
      item's occurrences in the last transaction. */
  lemma BuildAt(rev: seq<RevTxn>, y: Item)
    requires AllAligned(rev) && |rev| > 0 && AllAligned(rev[..|rev| - 1])
    requires var t0 := BuildUtilityLists(rev[..|rev| - 1]);
      && (y in t0.lists <==> y in ItemsOfRev(rev[..|rev| - 1]))
      && (y in t0.lists ==> t0.lists[y] == Occurrences(rev[..|rev| - 1], y))
    ensures var t := BuildUtilityLists(rev);
      && (y in t.lists <==> y in ItemsOfRev(rev))
      && (y in t.lists ==> t.lists[y] == Occurrences(rev, y))
  {
    var n := |rev| - 1;
    var last := rev[n];
    var t0 := BuildUtilityLists(rev[..n]);
    AppendRowAt(t0, last, |last.items|, y);
    assert last.items[..|last.items|] == last.items;
    ItemsOfRevSnoc(rev, n);
    assert rev[..n + 1] == rev;
    if y !in t0.lists {
      OccurrencesEmpty(rev[..n], y);
    }
  }

  /** The items of the pairs, in order. */
  function KeysOf(uls: Lists): (r: seq<Item>)
    ensures |r| == |uls| && forall i :: 0 <= i < |uls| ==> r[i] == uls[i].0
  {
    seq(|uls|, i requires 0 <= i < |uls| => uls[i].0)
  }

  /** Pairs of an item and its exact list, which is nonempty. */
  predicate ExactLists(rev: seq<RevTxn>, P: seq<Item>, uls: Lists)
    requires AllAligned(rev)
  {
    forall i :: 0 <= i < |uls| ==> uls[i].1 == ListFor(rev, P + [uls[i].0]) && |uls[i].1| > 0
  }

  /** Every item of the revised transactions has a pair. */
  predicate CoversItems(rev: seq<RevTxn>, uls: Lists) {
    forall y :: y in ItemsOfRev(rev) ==> y in KeysOf(uls)
  }

  /** The pairs of the dictionary, in insertion order: one per item of the
      revised transactions, each with its exact single-item list. */
  lemma DictionaryExact(rev: seq<RevTxn>)
    requires AllAligned(rev) && AllDistinct(rev)
    ensures var items := ItemsOf(BuildUtilityLists(rev));
      && ExactLists(rev, [], items) && CoversItems(rev, items) && FirstsDistinct(items)
  {
    var t := BuildUtilityLists(rev);
    var items := ItemsOf(t);
    BuildSpec(rev);
    forall i | 0 <= i < |items| ensures items[i].1 == ListFor(rev, [] + [items[i].0]) && |items[i].1| > 0 {
      var x := items[i].0;
      assert x in t.lists;
      OccurrencesIsListFor(rev, x);
      OccurrencesEmpty(rev, x);
      assert [] + [x] == [x];
    }
    forall y | y in ItemsOfRev(rev) ensures y in KeysOf(items) {
      assert y in t.lists;
      var i :| 0 <= i < |t.keys| && t.keys[i] == y;
      assert KeysOf(items)[i] == y;
    }
  }

  /** Sorting the pairs keeps them one per item, exact, and covering. */
  lemma SortedExact(rev: seq<RevTxn>, items: Lists, key: ((Item, seq<Entry>)) -> (int, int))
    requires AllAligned(rev) && ExactLists(rev, [], items) && CoversItems(rev, items) && FirstsDistinct(items)
    ensures var uls := SortBy(items, key);
      ExactLists(rev, [], uls) && CoversItems(rev, uls) && FirstsDistinct(uls)
  {
    var uls := SortBy(items, key);
    PermFirsts(uls, items);
    forall i | 0 <= i < |uls| ensures uls[i].1 == ListFor(rev, [] + [uls[i].0]) && |uls[i].1| > 0 {
      assert uls[i] in multiset(uls);
      assert uls[i] in multiset(items);
      var m :| 0 <= m < |items| && items[m] == uls[i];
    }
    forall y | y in ItemsOfRev(rev) ensures y in KeysOf(uls) {
      var i :| 0 <= i < |items| && KeysOf(items)[i] == y;
      assert items[i] in multiset(items);
      assert items[i] in multiset(uls);
      var j :| 0 <= j < |uls| && uls[j] == items[i];
      assert KeysOf(uls)[j] == y;
    }
  }
}
