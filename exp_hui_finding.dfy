/** The ordering of the top-level utility lists in experiments/hui.py: sorted
    by TWU only, two items of equal TWU keep the order in which their first
    entries were appended, which need not be the (TWU, item) order the
    revised transactions use; then the rutil of an entry no longer covers the
    items the search extends with, and a high-utility itemset is missed. */
module ExpHuiFinding {
  import opened Db
  import opened UtilityLists
  import opened ExpHui
  import ExpTwoPhase

  /** Three lines: items 1 and 2 both have TWU 11; item 2 is seen first. */
  function TieDb(): seq<Txn> {
    [Txn([2], [1], 5), Txn([1, 2], [5, 1], 6), Txn([1], [1], 5)]
  }

  lemma TieTwu()
    ensures TwuTable(TieDb()) == map[1 := 11, 2 := 11]
  {
    var db := TieDb();
    var items := ExpTwoPhase.ListedItems(db);
    assert 2 in db[0].items && 1 in db[1].items;
    assert items == {1, 2} by {
      forall x | x in items ensures x == 1 || x == 2 {
        var k, i :| 0 <= k < |db| && i in db[k].items && i == x;
      }
    }
    var d1, d2 := [db[0]], [db[0], db[1]];
    assert db[..2] == d2 && d2[..1] == d1 && d1[..0] == [];
    assert Count([2], 1) == 0 && Count([2], 2) == 1;
    assert Count([1, 2], 1) == 1 && Count([1, 2], 2) == 1;
    assert Count([1], 1) == 1 && Count([1], 2) == 0;
    assert OccurrenceTwu(1, d1[..0]) == 0 && OccurrenceTwu(2, d1[..0]) == 0;
    assert OccurrenceTwu(1, d1) == 0 && OccurrenceTwu(2, d1) == 5;
    assert OccurrenceTwu(1, d2) == 6 && OccurrenceTwu(2, d2) == 11;
    assert OccurrenceTwu(1, db) == 11 && OccurrenceTwu(2, db) == 11;
  }

  /** Both items are kept; the three lines revise to themselves. */
  lemma TieRevise()
    ensures Revise(Numbered(TieDb()), TwuTable(TieDb()), 6)
      == [RevTxn(0, [2], [1]), RevTxn(1, [1, 2], [5, 1]), RevTxn(2, [1], [1])]
  {
    TieTwu();
    TieNumbered();
    TieRevise3(TwuTable(TieDb()), Line(0, TieDb()[0]), Line(1, TieDb()[1]), Line(2, TieDb()[2]));
  }

  lemma TieRevise3(twu: map<Item, int>, l0: Line, l1: Line, l2: Line)
    requires twu == map[1 := 11, 2 := 11]
    requires l0 == Line(0, TieDb()[0]) && l1 == Line(1, TieDb()[1]) && l2 == Line(2, TieDb()[2])
    ensures Revise([l0, l1, l2], twu, 6) == [RevTxn(0, [2], [1]), RevTxn(1, [1, 2], [5, 1]), RevTxn(2, [1], [1])]
  {
    ReviseThree(l0, l1, l2, twu, 6);
    TieLine0(twu, l0);
    TieLine1(twu, l1);
    TieLine2(twu, l2);
    Three(RevTxn(0, [2], [1]), RevTxn(1, [1, 2], [5, 1]), RevTxn(2, [1], [1]));
  }

  lemma Three<T>(a: T, b: T, c: T)
    ensures [a] + [b] + [c] == [a, b, c]
  {
  }

  /** Revising three lines revises each one on its own. */
  lemma ReviseThree(l0: Line, l1: Line, l2: Line, twu: map<Item, int>, minUtil: int)
    ensures Revise([l0, l1, l2], twu, minUtil)
      == Revise([l0], twu, minUtil) + Revise([l1], twu, minUtil) + Revise([l2], twu, minUtil)
  {
    ReviseSplit([l0], l1, twu, minUtil);
    ReviseSplit([l0, l1], l2, twu, minUtil);
    assert [l0] + [l1] == [l0, l1] && [l0, l1] + [l2] == [l0, l1, l2];
  }

  /** The revision of one more line is appended to the revision of the
      others. */
  lemma ReviseSplit(init: seq<Line>, line: Line, twu: map<Item, int>, minUtil: int)
    ensures Revise(init + [line], twu, minUtil) == Revise(init, twu, minUtil) + Revise([line], twu, minUtil)
  {
    ReviseLast(init, line, twu, minUtil);
    ReviseLast([], line, twu, minUtil);
    assert [] + [line] == [line];
  }

  lemma TieLine0(twu: map<Item, int>, l: Line)
    requires twu == map[1 := 11, 2 := 11] && l == Line(0, TieDb()[0])
    ensures Revise([l], twu, 6) == [RevTxn(0, [2], [1])]
  {
    TieFiltered(twu);
    TieUnzip();
    ReviseLast([], l, twu, 6);
    assert [] + [l] == [l];
  }

  lemma TieLine1(twu: map<Item, int>, l: Line)
    requires twu == map[1 := 11, 2 := 11] && l == Line(1, TieDb()[1])
    ensures Revise([l], twu, 6) == [RevTxn(1, [1, 2], [5, 1])]
  {
    TieFiltered(twu);
    TieUnzip();
    ReviseLast([], l, twu, 6);
    assert [] + [l] == [l];
  }

  lemma TieLine2(twu: map<Item, int>, l: Line)
    requires twu == map[1 := 11, 2 := 11] && l == Line(2, TieDb()[2])
    ensures Revise([l], twu, 6) == [RevTxn(2, [1], [1])]
  {
    TieFiltered(twu);
    TieUnzip();
    ReviseLast([], l, twu, 6);
    assert [] + [l] == [l];
  }

  lemma TieNumbered()
    ensures Numbered(TieDb()) == [Line(0, TieDb()[0]), Line(1, TieDb()[1]), Line(2, TieDb()[2])]
  {
  }

  lemma TieUnzip()
    ensures Firsts([(2, 1)]) == [2] && Seconds([(2, 1)]) == [1]
    ensures Firsts([(1, 5), (2, 1)]) == [1, 2] && Seconds([(1, 5), (2, 1)]) == [5, 1]
    ensures Firsts([(1, 1)]) == [1] && Seconds([(1, 1)]) == [1]
  {
  }

  /** One more line at the end of the input. */
  lemma ReviseLast(init: seq<Line>, line: Line, twu: map<Item, int>, minUtil: int)
    ensures var f := Filtered(line.txn, twu, minUtil);
      Revise(init + [line], twu, minUtil)
      == Revise(init, twu, minUtil) + (if f == [] then [] else [RevTxn(line.tid, Firsts(f), Seconds(f))])
  {
    assert (init + [line])[..|init|] == init;
  }

  lemma TieFiltered(twu: map<Item, int>)
    requires twu == map[1 := 11, 2 := 11]
    ensures Filtered(TieDb()[0], twu, 6) == [(2, 1)]
    ensures Filtered(TieDb()[1], twu, 6) == [(1, 5), (2, 1)]
    ensures Filtered(TieDb()[2], twu, 6) == [(1, 1)]
  {
    var db := TieDb();
    assert 1 in Kept(twu, 6) && 2 in Kept(twu, 6);
    assert ZipPairs(db[0].items, db[0].utils) == [(2, 1)];
    assert ZipPairs(db[1].items, db[1].utils) == [(1, 5), (2, 1)];
    assert ZipPairs(db[2].items, db[2].utils) == [(1, 1)];
    var k1 := KeepPairs([(1, 5), (2, 1)], Kept(twu, 6));
    assert k1 == [(1, 5), (2, 1)];
    assert Ordering.SortBy(k1[1..], OrderKey(twu)) == [(2, 1)];
  }

  /** The dictionary of lists: item 2's list is created first. */
  lemma TieLists()
    ensures ItemsOf(BuildUtilityLists(Revise(Numbered(TieDb()), TwuTable(TieDb()), 6)))
      == [(2, [Entry(0, 1, 0), Entry(1, 1, 0)]), (1, [Entry(1, 5, 1), Entry(2, 1, 0)])]
  {
    TieRevise();
    TieBuild();
    TieItems(Table([2, 1], map[2 := [Entry(0, 1, 0), Entry(1, 1, 0)], 1 := [Entry(1, 5, 1), Entry(2, 1, 0)]]));
  }

  lemma TieBuild()
    ensures BuildUtilityLists([RevTxn(0, [2], [1]), RevTxn(1, [1, 2], [5, 1]), RevTxn(2, [1], [1])])
      == Table([2, 1], map[2 := [Entry(0, 1, 0), Entry(1, 1, 0)], 1 := [Entry(1, 5, 1), Entry(2, 1, 0)]])
  {
    TieBuild3(RevTxn(0, [2], [1]), RevTxn(1, [1, 2], [5, 1]), RevTxn(2, [1], [1]));
  }

  lemma TieBuild3(r0: RevTxn, r1: RevTxn, r2: RevTxn)
    requires r0 == RevTxn(0, [2], [1]) && r1 == RevTxn(1, [1, 2], [5, 1]) && r2 == RevTxn(2, [1], [1])
    ensures BuildUtilityLists([r0, r1, r2])
      == Table([2, 1], map[2 := [Entry(0, 1, 0), Entry(1, 1, 0)], 1 := [Entry(1, 5, 1), Entry(2, 1, 0)]])
  {
    TieBuild2(r0, r1);
    BuildThree(r0, r1, r2);
    TieRow2(BuildUtilityLists([r0, r1]), r2);
  }

  lemma TieBuild2(r0: RevTxn, r1: RevTxn)
    requires r0 == RevTxn(0, [2], [1]) && r1 == RevTxn(1, [1, 2], [5, 1])
    ensures AllAligned([r0, r1])
    ensures BuildUtilityLists([r0, r1]) == Table([2, 1], map[2 := [Entry(0, 1, 0), Entry(1, 1, 0)], 1 := [Entry(1, 5, 1)]])
  {
    TieBuild1(r0);
    BuildTwo(r0, r1);
    TieRow1(BuildUtilityLists([r0]), r1);
  }

  /** Building two lines appends the second one's row to the first one's
      table. */
  lemma BuildTwo(r0: RevTxn, r1: RevTxn)
    requires Aligned(r0) && Aligned(r1)
    ensures AllAligned([r0, r1])
    ensures BuildUtilityLists([r0, r1]) == AppendRow(BuildUtilityLists([r0]), r1, |r1.items|)
  {
    BuildLast([r0], r1);
    assert [r0] + [r1] == [r0, r1];
  }

  /** Building three lines appends the third one's row to the table of the
      first two. */
  lemma BuildThree(r0: RevTxn, r1: RevTxn, r2: RevTxn)
    requires Aligned(r0) && Aligned(r1) && Aligned(r2)
    ensures AllAligned([r0, r1, r2])
    ensures BuildUtilityLists([r0, r1, r2]) == AppendRow(BuildUtilityLists([r0, r1]), r2, |r2.items|)
  {
    BuildTwo(r0, r1);
    BuildLast([r0, r1], r2);
    assert [r0, r1] + [r2] == [r0, r1, r2];
  }

  lemma TieBuild1(r0: RevTxn)
    requires r0 == RevTxn(0, [2], [1])
    ensures AllAligned([r0])
    ensures BuildUtilityLists([r0]) == Table([2], map[2 := [Entry(0, 1, 0)]])
  {
    BuildLast([], r0);
    assert [] + [r0] == [r0];
    TieRow0();
  }

  lemma BuildLast(init: seq<RevTxn>, rt: RevTxn)
    requires AllAligned(init) && Aligned(rt)
    ensures AllAligned(init + [rt])
    ensures BuildUtilityLists(init + [rt]) == AppendRow(BuildUtilityLists(init), rt, |rt.items|)
  {
    var s := init + [rt];
    assert AllAligned(s) by {
      forall k | 0 <= k < |s| ensures Aligned(s[k]) {
        if k < |init| { assert s[k] == init[k]; }
      }
    }
    assert s[..|init|] == init;
  }

  lemma TieRow0()
    ensures AppendRow(Table([], map[]), RevTxn(0, [2], [1]), 1) == Table([2], map[2 := [Entry(0, 1, 0)]])
  {
    assert [1][1..] == [];
  }

  lemma TieRow1(t: Table, rt: RevTxn)
    requires t == Table([2], map[2 := [Entry(0, 1, 0)]]) && rt == RevTxn(1, [1, 2], [5, 1])
    ensures AppendRow(t, rt, 2) == Table([2, 1], map[2 := [Entry(0, 1, 0), Entry(1, 1, 0)], 1 := [Entry(1, 5, 1)]])
  {
    assert rt.utils[1..] == [1] && rt.utils[2..] == [];
    var a := AppendRow(t, rt, 1);
    assert a == Table([2, 1], map[2 := [Entry(0, 1, 0)], 1 := [Entry(1, 5, 1)]]);
    assert [Entry(0, 1, 0)] + [Entry(1, 1, 0)] == [Entry(0, 1, 0), Entry(1, 1, 0)];
    assert a.lists[2 := a.lists[2] + [Entry(1, 1, 0)]] == map[2 := [Entry(0, 1, 0), Entry(1, 1, 0)], 1 := [Entry(1, 5, 1)]];
  }

  lemma TieRow2(t: Table, rt: RevTxn)
    requires t == Table([2, 1], map[2 := [Entry(0, 1, 0), Entry(1, 1, 0)], 1 := [Entry(1, 5, 1)]]) && rt == RevTxn(2, [1], [1])
    ensures AppendRow(t, rt, 1)
      == Table([2, 1], map[2 := [Entry(0, 1, 0), Entry(1, 1, 0)], 1 := [Entry(1, 5, 1), Entry(2, 1, 0)]])
  {
    var m := map[2 := [Entry(0, 1, 0), Entry(1, 1, 0)], 1 := [Entry(1, 5, 1)]];
    assert [1][1..] == [];
    assert [Entry(1, 5, 1)] + [Entry(2, 1, 0)] == [Entry(1, 5, 1), Entry(2, 1, 0)];
    assert m[1 := m[1] + [Entry(2, 1, 0)]] == map[2 := [Entry(0, 1, 0), Entry(1, 1, 0)], 1 := [Entry(1, 5, 1), Entry(2, 1, 0)]];
  }

  lemma TieItems(t: Table)
    requires t == Table([2, 1], map[2 := [Entry(0, 1, 0), Entry(1, 1, 0)], 1 := [Entry(1, 5, 1), Entry(2, 1, 0)]])
    ensures TableOk(t)
    ensures ItemsOf(t) == [(2, [Entry(0, 1, 0), Entry(1, 1, 0)]), (1, [Entry(1, 5, 1), Entry(2, 1, 0)])]
  {
  }

  /** The list of item 2 and the list of item 1 over the revised lines. */
  function List2(): (Item, seq<Entry>) { (2, [Entry(0, 1, 0), Entry(1, 1, 0)]) }

  function List1(): (Item, seq<Entry>) { (1, [Entry(1, 5, 1), Entry(2, 1, 0)]) }

  /** A stable sort of two lists whose keys tie keeps them in place. */
  lemma SortTie(ls: Lists, key: ((Item, seq<Entry>)) -> (int, int))
    requires ls == [List2(), List1()]
    requires key(List2()) == key(List1())
    ensures Ordering.SortBy(ls, key) == [List2(), List1()]
  {
    assert ls[1..] == [List1()];
  }

  /** A sort whose key puts item 1 first swaps them. */
  lemma SortSwap(ls: Lists, key: ((Item, seq<Entry>)) -> (int, int))
    requires ls == [List2(), List1()]
    requires Ordering.KeyLt(key(List1()), key(List2()))
    ensures Ordering.SortBy(ls, key) == [List1(), List2()]
  {
    assert ls[1..] == [List1()];
  }

  lemma TieTopAsWritten()
    ensures TopLists(TieDb(), 6, TwuOnly(TwuTable(TieDb()))) == [List2(), List1()]
  {
    TieLists();
    TieTwu();
    SortTie([List2(), List1()], TwuOnly(TwuTable(TieDb())));
  }

  lemma TieTopCorrected()
    ensures TopLists(TieDb(), 6, TwuThenItem(TwuTable(TieDb()))) == [List1(), List2()]
  {
    TieLists();
    TieTwu();
    SortSwap([List2(), List1()], TwuThenItem(TwuTable(TieDb())));
  }

  lemma TieSums()
    ensures SumIu(List1().1) == 6 && SumIuRu(List1().1) == 7
    ensures SumIu(List2().1) == 2 && SumIuRu(List2().1) == 2
    ensures SumIu([Entry(1, 6, 0)]) == 6 && SumIuRu([Entry(1, 6, 0)]) == 6
  {
    assert List1().1[1..] == [Entry(2, 1, 0)] && List1().1[1..][1..] == [];
    assert List2().1[1..] == [Entry(1, 1, 0)] && List2().1[1..][1..] == [];
    assert [Entry(1, 6, 0)][1..] == [];
  }

  /** Item 2 comes first and is pruned, and item 1 has no later item left to
      extend with: only {1} is found. */
  lemma TieMineAsWritten(uls: Lists)
    requires uls == [List2(), List1()]
    ensures Mine([], uls, 6, []) == Some([([1], 6)])
  {
    TieSums();
    var found: seq<Found> := [([1], 6)];
    assert MineFrom([], uls, 6, [], 2) == Some([]);
    assert uls[2..] == [];
    assert Extensions([], uls[1].1, uls[2..]) == Some([]);
    assert [] + [1] == [1];
    assert Branch([], uls, 6, [], 1) == Some(found);
    assert found + [] == found;
    assert MineFrom([], uls, 6, [], 1) == Some(found);
    assert Branch([], uls, 6, [], 0) == Some([]);
    assert [] + found == found;
  }

  /** Item 1 comes first and its extension by item 2 reaches the threshold. */
  lemma TieMineCorrected(uls: Lists)
    requires uls == [List1(), List2()]
    ensures Mine([], uls, 6, []) == Some([([1], 6), ([1, 2], 6)])
  {
    TieSums();
    var xul := List1().1;
    var exts: Lists := [(2, [Entry(1, 6, 0)])];
    var here: seq<Found> := [([1], 6)];
    var deep: seq<Found> := [([1, 2], 6)];
    assert uls[1..] == [List2()];
    TieExtensions(xul, uls[1..]);
    TieMineInner(exts, xul);
    assert [] + [1] == [1];
    assert here + deep == [([1], 6), ([1, 2], 6)];
    assert Branch([], uls, 6, [], 0) == Some(here + deep);
    assert MineFrom([], uls, 6, [], 2) == Some([]);
    assert Branch([], uls, 6, [], 1) == Some([]);
    assert MineFrom([], uls, 6, [], 1) == Some([]);
    assert here + deep + [] == here + deep;
  }

  lemma TieExtensions(xul: seq<Entry>, ys: Lists)
    requires xul == List1().1 && ys == [List2()]
    ensures Extensions([], xul, ys) == Some([(2, [Entry(1, 6, 0)])])
  {
    TieConstruct(xul, List2().1);
    assert ys[..0] == [];
    assert Extensions([], xul, ys[..0]) == Some([]);
    var none: Lists := [];
    var nu := [Entry(1, 6, 0)];
    assert none + [(2, nu)] == [(2, nu)];
  }

  lemma TieConstruct(x: seq<Entry>, y: seq<Entry>)
    requires x == [Entry(1, 5, 1), Entry(2, 1, 0)] && y == [Entry(0, 1, 0), Entry(1, 1, 0)]
    ensures Construct([], x, y) == Some([Entry(1, 6, 0)])
  {
    assert y[..1] == [Entry(0, 1, 0)] && y[..1][..0] == [];
    assert Find(y[..1][..0], 2) == None;
    assert Find(y[..1], 2) == None;
    assert Find(y, 2) == None;
    assert ConstructStep([], x[1], y) == Some([]);
    var x1 := x[1..];
    assert x1 == [Entry(2, 1, 0)] && x1[0] == x[1] && x1[1..] == [];
    assert Construct([], x1[1..], y) == Some([]);
    var empty: seq<Entry> := [];
    assert empty + [] == [];
    assert Construct([], x1, y) == Some([]);
    assert Find(y, 1) == Some(Entry(1, 1, 0));
    assert ConstructStep([], x[0], y) == Some([Entry(1, 6, 0)]);
    assert [Entry(1, 6, 0)] + [] == [Entry(1, 6, 0)];
  }

  lemma TieMineInner(exts: Lists, xul: seq<Entry>)
    requires exts == [(2, [Entry(1, 6, 0)])] && xul == List1().1
    ensures Mine([1], exts, 6, xul) == Some([([1, 2], 6)])
  {
    TieSums();
    var found: seq<Found> := [([1, 2], 6)];
    assert exts[1..] == [];
    assert Extensions(xul, exts[0].1, exts[1..]) == Some([]);
    assert MineFrom([1], exts, 6, xul, 1) == Some([]);
    assert [1] + [2] == [1, 2];
    assert Branch([1], exts, 6, xul, 0) == Some(found);
    assert found + [] == found;
  }

  lemma TieWellFormed()
    ensures WellFormedDb(TieDb())
  {
    var db := TieDb();
    assert WellFormed(db[0]);
    assert Sum(db[1].utils) == 6;
    assert WellFormed(db[1]);
    assert WellFormed(db[2]);
  }

  /** The middle line holds {1, 2} with utility 5 + 1. */
  lemma MiddleLine(t: Txn)
    requires t == Txn([1, 2], [5, 1], 6)
    ensures Contains(t, [1, 2]) && UtilIn(t, [1, 2]) == 6
  {
    assert Dict(t) == map[1 := 5, 2 := 1];
    assert [1, 2][1..] == [2] && [2][1..] == [];
  }

  /** A line without x does not hold an itemset with x. */
  lemma Lacks(t: Txn, X: seq<Item>, x: Item)
    requires x in X && x !in Dict(t)
    ensures !Contains(t, X)
  {
  }

  /** The input is well formed and {1, 2} has utility 6: 5 + 1 in the middle line. */
  lemma TiePairUtility()
    ensures WellFormedDb(TieDb())
    ensures Utility([1, 2], TieDb()) == 6
  {
    TieWellFormed();
    var db := TieDb();
    var X := [1, 2];
    Lacks(db[0], X, 1);
    MiddleLine(db[1]);
    Lacks(db[2], X, 2);
    assert db[..0] == [] && db[..3] == db;
    UtilityStep(X, db, 0);
    UtilityStep(X, db, 1);
    UtilityStep(X, db, 2);
  }

  /** experiments/hui.py as written misses a high-utility itemset: {1, 2}
      has utility 6, the threshold is 6, and the result holds {1} alone. */
  lemma AsWrittenMissesItemset()
    ensures WellFormedDb(TieDb()) && Utility([1, 2], TieDb()) >= 6
    ensures MineAsWritten(TieDb(), 6) == Some([([1], 6)])
    ensures ([1, 2], 6) !in MineAsWritten(TieDb(), 6).value
  {
    TiePairUtility();
    TieTopAsWritten();
    TieMineAsWritten(TopLists(TieDb(), 6, TwuOnly(TwuTable(TieDb()))));
    OnlySingle(MineAsWritten(TieDb(), 6));
  }

  lemma OnlySingle(r: Option<seq<Found>>)
    requires r == Some([([1], 6)])
    ensures ([1, 2], 6) !in r.value
  {
    assert |[1, 2]| != |[1]|;
  }

  /** With the lists in (TWU, item) order the same input yields both itemsets. */
  lemma CorrectedFindsItemset()
    ensures MineCorrected(TieDb(), 6) == Some([([1], 6), ([1, 2], 6)])
  {
    TieTopCorrected();
    TieMineCorrected(TopLists(TieDb(), 6, TwuThenItem(TwuTable(TieDb()))));
  }
}
