/** What the search of experiments/hui.py finds. Whatever order the
    top-level lists come in, every pair it reports is an itemset that occurs,
    with its exact utility, at or above the threshold, and no KeyError
    arises. With the lists in the (TWU, item) order revise uses, it also
    reports every such itemset, written in that order. */
module ExpHuiTheorems {
  import opened Db
  import opened Ordering
  import opened UtilityLists
  import opened ExpHui
  import opened ExpHuiProofs
  import opened ExpHuiJoin

  // ---------------------------------------------------------------------
  // Soundness of the search, in any order

  /** A call `huiMiner(prefix, ULs, minutil, prefix_ul)` as the search makes
      it: the prefix's exact list (none for the empty prefix) and, for each
      pair, an item with the exact, nonempty list of prefix + [item]. */
  predicate Node(rev: seq<RevTxn>, prefix: seq<Item>, uls: Lists, pul: seq<Entry>) {
    && AllAligned(rev) && AllProper(rev) && TidsIncreasing(rev)
    && pul == PrefixList(rev, prefix) && ExactLists(rev, prefix, uls)
  }

  /** A reported pair: a nonempty itemset that occurs, with the iutil sum of
      its exact list, at or above the threshold. */
  predicate SoundPair(rev: seq<RevTxn>, minUtil: int, e: Found)
    requires AllAligned(rev)
  {
    |e.0| > 0 && |ListFor(rev, e.0)| > 0 && e.1 == SumIu(ListFor(rev, e.0)) && e.1 >= minUtil
  }

  predicate AllSound(rev: seq<RevTxn>, minUtil: int, found: seq<Found>)
    requires AllAligned(rev)
  {
    forall k :: 0 <= k < |found| ==> SoundPair(rev, minUtil, found[k])
  }

  lemma SoundThen(rev: seq<RevTxn>, minUtil: int, a: seq<Found>, r: Option<seq<Found>>)
    requires AllAligned(rev) && AllSound(rev, minUtil, a)
    requires r.Some? && AllSound(rev, minUtil, r.value)
    ensures Then(a, r).Some? && AllSound(rev, minUtil, Then(a, r).value)
  {
    var s := a + r.value;
    forall k | 0 <= k < |s| ensures SoundPair(rev, minUtil, s[k]) {
      if k >= |a| {
        assert s[k] == r.value[k - |a|];
      }
    }
  }

  lemma ExactSuffix(rev: seq<RevTxn>, P: seq<Item>, uls: Lists, i: nat)
    requires AllAligned(rev) && ExactLists(rev, P, uls) && i <= |uls|
    ensures ExactLists(rev, P, uls[i..])
  {
    assert forall k :: 0 <= k < |uls[i..]| ==> uls[i..][k] == uls[i + k];
  }

  /** The search never raises and reports only sound pairs. */
  lemma MineSound(rev: seq<RevTxn>, prefix: seq<Item>, uls: Lists, minUtil: int, pul: seq<Entry>)
    requires Node(rev, prefix, uls, pul)
    ensures Mine(prefix, uls, minUtil, pul).Some?
    ensures AllSound(rev, minUtil, Mine(prefix, uls, minUtil, pul).value)
    decreases |uls|, 1
  {
    MineFromSound(rev, prefix, uls, minUtil, pul, 0);
  }

  lemma MineFromSound(rev: seq<RevTxn>, prefix: seq<Item>, uls: Lists, minUtil: int, pul: seq<Entry>, i: nat)
    requires Node(rev, prefix, uls, pul) && i <= |uls|
    ensures MineFrom(prefix, uls, minUtil, pul, i).Some?
    ensures AllSound(rev, minUtil, MineFrom(prefix, uls, minUtil, pul, i).value)
    decreases |uls|, 0, |uls| - i
  {
    if i < |uls| {
      BranchSound(rev, prefix, uls, minUtil, pul, i);
      MineFromSound(rev, prefix, uls, minUtil, pul, i + 1);
      SoundThen(rev, minUtil, Branch(prefix, uls, minUtil, pul, i).value, MineFrom(prefix, uls, minUtil, pul, i + 1));
    }
  }

  lemma BranchSound(rev: seq<RevTxn>, prefix: seq<Item>, uls: Lists, minUtil: int, pul: seq<Entry>, i: nat)
    requires Node(rev, prefix, uls, pul) && i < |uls|
    ensures Branch(prefix, uls, minUtil, pul, i).Some?
    ensures AllSound(rev, minUtil, Branch(prefix, uls, minUtil, pul, i).value)
    decreases |uls|, 0, 0
  {
    var x, xul := uls[i].0, uls[i].1;
    assert xul == ListFor(rev, prefix + [x]) && |xul| > 0;
    var here := if SumIu(xul) >= minUtil then [(prefix + [x], SumIu(xul))] else [];
    assert AllSound(rev, minUtil, here);
    if SumIuRu(xul) >= minUtil {
      ExactSuffix(rev, prefix, uls, i + 1);
      ExtensionsExact(rev, prefix, x, uls[i + 1..]);
      var exts := Extensions(pul, xul, uls[i + 1..]).value;
      if exts != [] {
        assert Node(rev, prefix + [x], exts, xul);
        MineSound(rev, prefix + [x], exts, minUtil, xul);
        SoundThen(rev, minUtil, here, Mine(prefix + [x], exts, minUtil, xul));
      }
    }
  }

  // ---------------------------------------------------------------------
  // Completeness of the search in (TWU, item) order

  /** Every revised transaction lists its items in strictly increasing order. */
  predicate Ordered(twu: map<Item, int>, rev: seq<RevTxn>) {
    forall k :: 0 <= k < |rev| ==> Chain(twu, rev[k].items)
  }

  /** y may follow the prefix: it lies after the prefix's last item. */
  predicate Beyond(twu: map<Item, int>, prefix: seq<Item>, y: Item) {
    |prefix| == 0 || KeyLt(Key(twu, prefix[|prefix| - 1]), Key(twu, y))
  }

  /** The pairs of a node in order: items in strictly increasing order, all
      after the prefix, among them every item after the prefix whose
      extension occurs. */
  ghost predicate Covers(rev: seq<RevTxn>, twu: map<Item, int>, prefix: seq<Item>, uls: Lists)
    requires AllAligned(rev)
  {
    && Chain(twu, KeysOf(uls))
    && (forall k :: 0 <= k < |uls| ==> Beyond(twu, prefix, uls[k].0))
    && (forall y :: Beyond(twu, prefix, y) && |ListFor(rev, prefix + [y])| > 0 ==> y in KeysOf(uls))
  }

  /** In a chain, a smaller key comes first. */
  lemma ChainOrder(twu: map<Item, int>, s: seq<Item>, a: nat, b: nat)
    requires Chain(twu, s) && a < |s| && b < |s| && KeyLt(Key(twu, s[a]), Key(twu, s[b]))
    ensures a < b
  {
  }

  lemma HeadSplit(prefix: seq<Item>, Z: seq<Item>)
    requires |Z| > 0
    ensures (prefix + [Z[0]]) + Z[1..] == prefix + Z
    ensures (prefix + [Z[0]])[|prefix + [Z[0]]| - 1] == Z[0]
    ensures |Z| == 1 ==> (prefix + [Z[0]]) + Z[1..] == prefix + [Z[0]]
  {
  }

  lemma ChainTail(twu: map<Item, int>, Z: seq<Item>)
    requires Chain(twu, Z) && |Z| > 0
    ensures Chain(twu, Z[1..])
    ensures forall w :: w in Z[1..] ==> KeyLt(Key(twu, Z[0]), Key(twu, w))
  {
    forall w | w in Z[1..] ensures KeyLt(Key(twu, Z[0]), Key(twu, w)) {
      var j :| 0 <= j < |Z[1..]| && Z[1..][j] == w;
      assert Z[j + 1] == w;
    }
  }

  lemma ChainSuffix(twu: map<Item, int>, uls: Lists, i: nat)
    requires Chain(twu, KeysOf(uls)) && i <= |uls|
    ensures Chain(twu, KeysOf(uls[i..]))
  {
    assert forall k :: 0 <= k < |uls| - i ==> KeysOf(uls[i..])[k] == KeysOf(uls)[i + k];
  }

  /** In a transaction in chain order, the items up to x's position all
      precede x, so none of them lies after x. */
  lemma AfterChain(twu: map<Item, int>, rt: RevTxn, X: seq<Item>, Zr: seq<Item>)
    requires Chain(twu, rt.items) && |X| > 0 && X[|X| - 1] in rt.items
    requires forall w :: w in Zr ==> KeyLt(Key(twu, X[|X| - 1]), Key(twu, w))
    ensures After(rt, X, Zr)
  {
    var x := X[|X| - 1];
    var p := IndexOf(rt.items, x);
    forall k | 0 <= k <= p ensures rt.items[k] !in Zr {
      if k < p {
        assert KeyLt(Key(twu, rt.items[k]), Key(twu, x));
      }
    }
  }

  /** The iutil + rutil sum of prefix + [x] bounds the utility of every
      extension of it by later items. */
  lemma ExtensionBound(rev: seq<RevTxn>, twu: map<Item, int>, X: seq<Item>, Zr: seq<Item>)
    requires AllProper(rev) && Ordered(twu, rev) && |X| > 0 && Chain(twu, Zr)
    requires forall w :: w in Zr ==> KeyLt(Key(twu, X[|X| - 1]), Key(twu, w))
    ensures AllAligned(rev)
    ensures SumIu(ListFor(rev, X + Zr)) <= SumIuRu(ListFor(rev, X))
  {
    Chained(twu, Zr);
    forall k | 0 <= k < |rev| && ContainsR(rev[k], X + Zr) ensures After(rev[k], X, Zr) {
      assert X[|X| - 1] in X + Zr;
      AfterChain(twu, rev[k], X, Zr);
    }
    ListBound(rev, X, Zr);
  }

  /** The pairs passed to the recursive call cover the extended prefix. */
  lemma CoversNext(rev: seq<RevTxn>, twu: map<Item, int>, prefix: seq<Item>, uls: Lists, i: nat, exts: Lists)
    requires AllAligned(rev) && Covers(rev, twu, prefix, uls) && i < |uls|
    requires forall y :: y in KeysOf(exts) <==> y in KeysOf(uls[i + 1..]) && |ListFor(rev, prefix + [uls[i].0] + [y])| > 0
    requires Chain(twu, KeysOf(exts))
    ensures Covers(rev, twu, prefix + [uls[i].0], exts)
  {
    var x := uls[i].0;
    var X := prefix + [x];
    assert X[|X| - 1] == x;
    forall k | 0 <= k < |exts| ensures Beyond(twu, X, exts[k].0) {
      var z := exts[k].0;
      assert KeysOf(exts)[k] == z;
      assert z in KeysOf(exts);
      assert z in KeysOf(uls[i + 1..]);
      var m :| 0 <= m < |uls[i + 1..]| && KeysOf(uls[i + 1..])[m] == z;
      assert KeysOf(uls)[i + 1 + m] == z && KeysOf(uls)[i] == x;
    }
    forall y | Beyond(twu, X, y) && |ListFor(rev, X + [y])| > 0 ensures y in KeysOf(exts) {
      assert ListFor(rev, X + [y]) != [];
      ListForSub(rev, prefix + [y], X + [y]);
      if |prefix| > 0 {
        assert KeysOf(uls)[i] == x;
        assert Beyond(twu, prefix, x);
      }
      assert Beyond(twu, prefix, y);
      var m :| 0 <= m < |uls| && KeysOf(uls)[m] == y;
      assert KeysOf(uls)[i] == x;
      ChainOrder(twu, KeysOf(uls), i, m);
      assert KeysOf(uls[i + 1..])[m - i - 1] == y;
    }
  }

  /** A branch of a later loop position is part of the loop from i on. */
  lemma {:induction false} MineFromHas(prefix: seq<Item>, uls: Lists, minUtil: int, pul: seq<Entry>, i: nat, j: nat, e: Found)
    requires i <= j < |uls| && MineFrom(prefix, uls, minUtil, pul, i).Some?
    requires Branch(prefix, uls, minUtil, pul, j).Some? && e in Branch(prefix, uls, minUtil, pul, j).value
    ensures e in MineFrom(prefix, uls, minUtil, pul, i).value
    decreases j - i
  {
    var b := Branch(prefix, uls, minUtil, pul, i).value;
    var rest := MineFrom(prefix, uls, minUtil, pul, i + 1).value;
    assert MineFrom(prefix, uls, minUtil, pul, i).value == b + rest;
    if i < j {
      MineFromHas(prefix, uls, minUtil, pul, i + 1, j, e);
    }
  }

  /** The search from a covering node reports every itemset prefix + Z with
      Z in chain order after the prefix that occurs with utility at or above
      the threshold. */
  lemma MineComplete(rev: seq<RevTxn>, twu: map<Item, int>, prefix: seq<Item>, uls: Lists, minUtil: int, pul: seq<Entry>, Z: seq<Item>)
    requires Node(rev, prefix, uls, pul) && Ordered(twu, rev) && Covers(rev, twu, prefix, uls)
    requires |Z| > 0 && Chain(twu, Z) && Beyond(twu, prefix, Z[0])
    requires |ListFor(rev, prefix + Z)| > 0 && SumIu(ListFor(rev, prefix + Z)) >= minUtil
    ensures Mine(prefix, uls, minUtil, pul).Some?
    ensures (prefix + Z, SumIu(ListFor(rev, prefix + Z))) in Mine(prefix, uls, minUtil, pul).value
    decreases |uls|, 1, 0
  {
    MineSound(rev, prefix, uls, minUtil, pul);
    var z := Z[0];
    assert ListFor(rev, prefix + Z) != [];
    assert z in Z;
    ListForSub(rev, prefix + [z], prefix + Z);
    var i :| 0 <= i < |uls| && KeysOf(uls)[i] == z;
    BranchHas(rev, twu, prefix, uls, minUtil, pul, i, Z);
    BranchSound(rev, prefix, uls, minUtil, pul, i);
    MineFromHas(prefix, uls, minUtil, pul, 0, i, (prefix + Z, SumIu(ListFor(rev, prefix + Z))));
  }

  lemma BranchHas(rev: seq<RevTxn>, twu: map<Item, int>, prefix: seq<Item>, uls: Lists, minUtil: int, pul: seq<Entry>, i: nat, Z: seq<Item>)
    requires Node(rev, prefix, uls, pul) && Ordered(twu, rev) && Covers(rev, twu, prefix, uls)
    requires |Z| > 0 && Chain(twu, Z) && i < |uls| && uls[i].0 == Z[0]
    requires |ListFor(rev, prefix + Z)| > 0 && SumIu(ListFor(rev, prefix + Z)) >= minUtil
    ensures Branch(prefix, uls, minUtil, pul, i).Some?
    ensures (prefix + Z, SumIu(ListFor(rev, prefix + Z))) in Branch(prefix, uls, minUtil, pul, i).value
    decreases |uls|, 0, 1
  {
    BranchSound(rev, prefix, uls, minUtil, pul, i);
    var x, xul := uls[i].0, uls[i].1;
    var X := prefix + [x];
    assert xul == ListFor(rev, X);
    var e := (prefix + Z, SumIu(ListFor(rev, prefix + Z)));
    var here := if SumIu(xul) >= minUtil then [(X, SumIu(xul))] else [];
    var Zr := Z[1..];
    HeadSplit(prefix, Z);
    ChainTail(twu, Z);
    ExtensionBound(rev, twu, X, Zr);
    if |Z| == 1 {
      assert Zr == [];
      assert e in here;
    } else {
      BranchDeep(rev, twu, prefix, uls, minUtil, pul, i, Z);
    }
  }

  /** With more than one item in Z, the extensions of prefix + [Z[0]] form a
      covering node and the search below them reports prefix + Z. */
  lemma BranchDeep(rev: seq<RevTxn>, twu: map<Item, int>, prefix: seq<Item>, uls: Lists, minUtil: int, pul: seq<Entry>, i: nat, Z: seq<Item>)
    requires Node(rev, prefix, uls, pul) && Ordered(twu, rev) && Covers(rev, twu, prefix, uls)
    requires |Z| > 1 && Chain(twu, Z) && i < |uls| && uls[i].0 == Z[0]
    requires |ListFor(rev, prefix + Z)| > 0 && SumIu(ListFor(rev, prefix + Z)) >= minUtil
    ensures Extensions(pul, uls[i].1, uls[i + 1..]).Some?
    ensures Extensions(pul, uls[i].1, uls[i + 1..]).value != []
    ensures Mine(prefix + [uls[i].0], Extensions(pul, uls[i].1, uls[i + 1..]).value, minUtil, uls[i].1).Some?
    ensures (prefix + Z, SumIu(ListFor(rev, prefix + Z)))
      in Mine(prefix + [uls[i].0], Extensions(pul, uls[i].1, uls[i + 1..]).value, minUtil, uls[i].1).value
    decreases |uls|, 0, 0
  {
    var x, xul := uls[i].0, uls[i].1;
    var X := prefix + [x];
    assert xul == ListFor(rev, X);
    var Zr := Z[1..];
    HeadSplit(prefix, Z);
    ChainTail(twu, Z);
    ExactSuffix(rev, prefix, uls, i + 1);
    ChainSuffix(twu, uls, i + 1);
    ExtensionsExact(rev, prefix, x, uls[i + 1..]);
    ExtensionsChain(rev, prefix, x, uls[i + 1..], twu);
    var exts := Extensions(pul, xul, uls[i + 1..]).value;
    CoversNext(rev, twu, prefix, uls, i, exts);
    var w := Zr[0];
    assert w in Zr && w in prefix + Z;
    ListForSub(rev, X + [w], X + Zr);
    assert Beyond(twu, X, w);
    assert w in KeysOf(exts);
    assert Node(rev, X, exts, xul);
    MineComplete(rev, twu, X, exts, minUtil, xul, Zr);
  }

  // ---------------------------------------------------------------------
  // The pipeline on a well-formed database

  /** The top-level call `huiMiner([], sorted_ULs, minutil)`: revised
      transactions as revise builds them and one exact single-item list per
      item they hold, in the order of the key. */
  lemma TopNode(db: seq<Txn>, minUtil: int, key: ((Item, seq<Entry>)) -> (int, int))
    requires PlainDb(db)
    ensures var twu := TwuTable(db);
      var rev := Revise(Numbered(db), twu, minUtil);
      var top := TopLists(db, minUtil, key);
      && Node(rev, [], top, []) && AllShaped(twu, minUtil, rev)
      && CoversItems(rev, top) && FirstsDistinct(top) && SortedBy(top, key)
  {
    var twu := TwuTable(db);
    var rev := Revise(Numbered(db), twu, minUtil);
    ReviseShape(db, twu, minUtil);
    assert AllDistinct(rev) by {
      forall k | 0 <= k < |rev| ensures Distinct(rev[k].items) {
        assert Proper(rev[k]);
      }
    }
    var items := ItemsOf(BuildUtilityLists(rev));
    DictionaryExact(rev);
    SortedExact(rev, items, key);
  }

  /** A nonempty exact list makes X part of a revised transaction, whose
      items are all kept. */
  lemma OccursKept(rev: seq<RevTxn>, twu: map<Item, int>, minUtil: int, X: seq<Item>)
    requires AllAligned(rev) && AllShaped(twu, minUtil, rev) && |X| > 0 && |ListFor(rev, X)| > 0
    ensures forall x :: x in X ==> x in Kept(twu, minUtil)
  {
    ListForEmptyIff(rev, X);
    var k :| 0 <= k < |rev| && ContainsR(rev[k], X);
    assert Shaped(twu, minUtil, rev[k]);
  }

  /** Whatever the order of the top-level lists, the pipeline raises no
      KeyError and reports only itemsets that occur, each with its exact
      utility, which reaches the threshold. */
  lemma PipelineSound(db: seq<Txn>, minUtil: int, key: ((Item, seq<Entry>)) -> (int, int))
    requires PlainDb(db)
    ensures Mine([], TopLists(db, minUtil, key), minUtil, []).Some?
    ensures forall e :: e in Mine([], TopLists(db, minUtil, key), minUtil, []).value ==>
      |e.0| > 0 && Occurs(e.0, db) && e.1 == Utility(e.0, db) && e.1 >= minUtil
  {
    var twu := TwuTable(db);
    var rev := Revise(Numbered(db), twu, minUtil);
    var top := TopLists(db, minUtil, key);
    TopNode(db, minUtil, key);
    MineSound(rev, [], top, minUtil, []);
    var found := Mine([], top, minUtil, []).value;
    forall e | e in found ensures |e.0| > 0 && Occurs(e.0, db) && e.1 == Utility(e.0, db) && e.1 >= minUtil {
      var k :| 0 <= k < |found| && found[k] == e;
      assert SoundPair(rev, minUtil, e);
      OccursKept(rev, twu, minUtil, e.0);
      ReviseFaithful(db, twu, minUtil, e.0);
    }
  }

  /** The pipeline as written (lists ordered by TWU only) is sound. */
  lemma AsWrittenSound(db: seq<Txn>, minUtil: int)
    requires PlainDb(db)
    ensures MineAsWritten(db, minUtil).Some?
    ensures forall e :: e in MineAsWritten(db, minUtil).value ==>
      |e.0| > 0 && Occurs(e.0, db) && e.1 == Utility(e.0, db) && e.1 >= minUtil
  {
    PipelineSound(db, minUtil, TwuOnly(TwuTable(db)));
  }

  /** The pipeline with lists in (TWU, item) order is sound. */
  lemma CorrectedSound(db: seq<Txn>, minUtil: int)
    requires PlainDb(db)
    ensures MineCorrected(db, minUtil).Some?
    ensures forall e :: e in MineCorrected(db, minUtil).value ==>
      |e.0| > 0 && Occurs(e.0, db) && e.1 == Utility(e.0, db) && e.1 >= minUtil
  {
    PipelineSound(db, minUtil, TwuThenItem(TwuTable(db)));
  }

  /** Every item of a high-utility itemset has a TWU at or above the
      threshold, so revise keeps it. */
  lemma HighUtilityKept(db: seq<Txn>, minUtil: int, X: seq<Item>)
    requires WellFormedDb(db) && Distinct(X) && Occurs(X, db) && Utility(X, db) >= minUtil
    ensures forall x :: x in X ==> x in Kept(TwuTable(db), minUtil)
  {
    var k :| 0 <= k < |db| && Contains(db[k], X);
    UtilityAtMostTwu(X, db);
    WellFormedTotals(db);
    forall x | x in X ensures x in Kept(TwuTable(db), minUtil) {
      ZipKeys(db[k].items, db[k].utils);
      assert x in db[k].items;
      assert x in ExpTwoPhase.ListedItems(db);
      OccurrenceTwuIsTwu(x, db);
      TwuAntiMonotone([x], X, db);
    }
  }

  /** Sorted by (TWU, item) with no item twice, the top-level items form a
      chain. */
  lemma TopChain(twu: map<Item, int>, top: Lists)
    requires SortedBy(top, TwuThenItem(twu)) && FirstsDistinct(top)
    ensures Chain(twu, KeysOf(top))
  {
    forall i, j | 0 <= i < j < |top| ensures KeyLt(Key(twu, KeysOf(top)[i]), Key(twu, KeysOf(top)[j])) {
      assert KeyLe(TwuThenItem(twu)(top[i]), TwuThenItem(twu)(top[j]));
    }
  }

  /** In (TWU, item) order the top-level call covers every item whose
      single-item list is nonempty. */
  lemma TopCovers(db: seq<Txn>, minUtil: int)
    requires WellFormedDb(db)
    ensures var twu := TwuTable(db);
      var rev := Revise(Numbered(db), twu, minUtil);
      var top := TopLists(db, minUtil, TwuThenItem(twu));
      && Node(rev, [], top, []) && Ordered(twu, rev) && Covers(rev, twu, [], top)
  {
    var twu := TwuTable(db);
    var rev := Revise(Numbered(db), twu, minUtil);
    var top := TopLists(db, minUtil, TwuThenItem(twu));
    WellFormedPlain(db);
    TopNode(db, minUtil, TwuThenItem(twu));
    TopChain(twu, top);
    assert Ordered(twu, rev) by {
      forall k | 0 <= k < |rev| ensures Chain(twu, rev[k].items) {
        assert Shaped(twu, minUtil, rev[k]);
      }
    }
    forall y | Beyond(twu, [], y) && |ListFor(rev, [] + [y])| > 0 ensures y in KeysOf(top) {
      ListForEmptyIff(rev, [] + [y]);
      var k :| 0 <= k < |rev| && ContainsR(rev[k], [] + [y]);
      assert y in [] + [y];
      assert y in ItemsOfRev(rev);
    }
  }

  /** The pipeline with lists in (TWU, item) order reports every itemset that
      occurs with utility at or above the threshold, written in that order,
      with its utility. */
  lemma CorrectedComplete(db: seq<Txn>, minUtil: int, X: seq<Item>)
    requires WellFormedDb(db) && |X| > 0 && Chain(TwuTable(db), X)
    requires Occurs(X, db) && Utility(X, db) >= minUtil
    ensures MineCorrected(db, minUtil).Some?
    ensures (X, Utility(X, db)) in MineCorrected(db, minUtil).value
  {
    var twu := TwuTable(db);
    var rev := Revise(Numbered(db), twu, minUtil);
    var top := TopLists(db, minUtil, TwuThenItem(twu));
    TopCovers(db, minUtil);
    Chained(twu, X);
    HighUtilityKept(db, minUtil, X);
    WellFormedPlain(db);
    ReviseFaithful(db, twu, minUtil, X);
    TopComplete(rev, twu, top, minUtil, X);
  }

  /** The search from a covering top node reports every chained itemset
      whose list sums to at least the threshold. */
  lemma TopComplete(rev: seq<RevTxn>, twu: map<Item, int>, top: Lists, minUtil: int, X: seq<Item>)
    requires Node(rev, [], top, []) && Ordered(twu, rev) && Covers(rev, twu, [], top)
    requires |X| > 0 && Chain(twu, X)
    requires |ListFor(rev, X)| > 0 && SumIu(ListFor(rev, X)) >= minUtil
    ensures Mine([], top, minUtil, []).Some?
    ensures (X, SumIu(ListFor(rev, X))) in Mine([], top, minUtil, []).value
  {
    assert [] + X == X;
    MineComplete(rev, twu, [], top, minUtil, [], X);
  }
}
