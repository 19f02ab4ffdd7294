/** A worked input for hui.py: three lines over the items 1, 2 and 3, mined
    at threshold 10. Item 2 has TWU 31, item 1 has 22 and item 3 has 21, so
    the engine writes itemsets in the order 2, 1, 3. */
module HuiMinerExample {
  import opened Db
  import opened Ordering
  import opened HuiMiner
  import opened HuiMinerTheorems

  /** `1 2:10:4 6`, `2 3:9:5 4` and `1 2 3:12:3 5 4`. */
  function SampleDb(): seq<Txn> {
    [Txn([1, 2], [4, 6], 10), Txn([2, 3], [5, 4], 9), Txn([1, 2, 3], [3, 5, 4], 12)]
  }

  /** `1 2:10:4 6`. */
  lemma FirstLine(t: Txn)
    requires t == Txn([1, 2], [4, 6], 10)
    ensures Dict(t) == map[1 := 4, 2 := 6] && WellFormed(t)
  {
    assert [1, 2][1..] == [2] && [4, 6][1..] == [6] && [2][1..] == [] && [6][1..] == [];
    assert Sum(t.utils) == 10;
  }

  /** `2 3:9:5 4`. */
  lemma SecondLine(t: Txn)
    requires t == Txn([2, 3], [5, 4], 9)
    ensures Dict(t) == map[2 := 5, 3 := 4] && WellFormed(t)
  {
    assert [2, 3][1..] == [3] && [5, 4][1..] == [4] && [3][1..] == [] && [4][1..] == [];
    assert Sum(t.utils) == 9;
  }

  /** `1 2 3:12:3 5 4`, its dictionary built pair by pair from the back. */
  lemma ThirdLine(t: Txn)
    requires t == Txn([1, 2, 3], [3, 5, 4], 12)
    ensures Dict(t) == map[1 := 3, 2 := 5, 3 := 4] && WellFormed(t)
  {
    ThirdZip();
    ThirdShape(t);
  }

  lemma ThirdZip()
    ensures Zip([1, 2, 3], [3, 5, 4]) == map[1 := 3, 2 := 5, 3 := 4]
  {
    assert [1, 2, 3][1..] == [2, 3] && [3, 5, 4][1..] == [5, 4];
    assert [2, 3][1..] == [3] && [5, 4][1..] == [4] && [3][1..] == [] && [4][1..] == [];
    var c := Zip([3], [4]);
    assert c == map[3 := 4];
    var b := Zip([2, 3], [5, 4]);
    assert b == map[2 := 5] + c;
    assert Zip([1, 2, 3], [3, 5, 4]) == map[1 := 3] + b;
  }

  lemma ThirdShape(t: Txn)
    requires t == Txn([1, 2, 3], [3, 5, 4], 12)
    ensures WellFormed(t)
  {
    assert [3, 5, 4][1..] == [5, 4] && [5, 4][1..] == [4] && [4][1..] == [];
    assert Sum(t.utils) == 12;
    assert Distinct(t.items) by {
      assert t.items[0] == 1 && t.items[1] == 2 && t.items[2] == 3;
    }
  }

  /** What the lemmas below use of the sample: its dictionaries and totals. */
  predicate SampleShape(db: seq<Txn>) {
    && |db| == 3
    && Dict(db[0]) == map[1 := 4, 2 := 6] && db[0].total == 10
    && Dict(db[1]) == map[2 := 5, 3 := 4] && db[1].total == 9
    && Dict(db[2]) == map[1 := 3, 2 := 5, 3 := 4] && db[2].total == 12
  }

  lemma SampleDicts()
    ensures SampleShape(SampleDb()) && WellFormedDb(SampleDb())
  {
    var db := SampleDb();
    FirstLine(db[0]);
    SecondLine(db[1]);
    ThirdLine(db[2]);
  }

  /** Utility over three lines, one line at a time. */
  lemma UtilityOverThree(X: seq<Item>, db: seq<Txn>)
    requires |db| == 3
    ensures Utility(X, db) == (if Contains(db[0], X) then UtilIn(db[0], X) else 0)
      + (if Contains(db[1], X) then UtilIn(db[1], X) else 0)
      + (if Contains(db[2], X) then UtilIn(db[2], X) else 0)
  {
    assert db[..0] == [] && db[..3] == db;
    UtilityStep(X, db, 0);
    UtilityStep(X, db, 1);
    UtilityStep(X, db, 2);
  }

  /** TWU over three lines, one line at a time. */
  lemma TwuOverThree(X: seq<Item>, db: seq<Txn>)
    requires |db| == 3
    ensures TWU(X, db) == (if Contains(db[0], X) then db[0].total else 0)
      + (if Contains(db[1], X) then db[1].total else 0)
      + (if Contains(db[2], X) then db[2].total else 0)
  {
    var d1, d2 := db[..1], db[..2];
    assert d1[..0] == [] && d2[..1] == d1 && db[..2] == d2;
    assert TWU(X, d1) == (if Contains(db[0], X) then db[0].total else 0);
    assert TWU(X, d2) == TWU(X, d1) + (if Contains(db[1], X) then db[1].total else 0);
  }

  /** The single items' TWUs: 22, 31 and 21. */
  lemma SampleTwus(db: seq<Txn>)
    requires SampleShape(db)
    ensures TWU([1], db) == 22 && TWU([2], db) == 31 && TWU([3], db) == 21
  {
    OneIn(db[0], 1); OneIn(db[1], 1); OneIn(db[2], 1);
    OneIn(db[0], 2); OneIn(db[1], 2); OneIn(db[2], 2);
    OneIn(db[0], 3); OneIn(db[1], 3); OneIn(db[2], 3);
    TwuOverThree([1], db);
    TwuOverThree([2], db);
    TwuOverThree([3], db);
  }

  /** What a line holds of a one-, two- or three-item itemset, and its
      utility there. */
  lemma OneIn(t: Txn, a: Item)
    ensures Contains(t, [a]) == (a in Dict(t)) && UtilIn(t, [a]) == Get(Dict(t), a)
  {
    assert [a][1..] == [] && a in [a];
    assert SumOf(Dict(t), [a]) == Get(Dict(t), a) + SumOf(Dict(t), []);
  }

  lemma TwoIn(t: Txn, a: Item, b: Item)
    ensures Contains(t, [a, b]) == (a in Dict(t) && b in Dict(t))
    ensures UtilIn(t, [a, b]) == Get(Dict(t), a) + Get(Dict(t), b)
  {
    assert [a, b][1..] == [b] && a in [a, b] && b in [a, b];
    assert SumOf(Dict(t), [a, b]) == Get(Dict(t), a) + SumOf(Dict(t), [b]);
    OneIn(t, b);
  }

  lemma ThreeIn(t: Txn, a: Item, b: Item, c: Item)
    ensures Contains(t, [a, b, c]) == (a in Dict(t) && b in Dict(t) && c in Dict(t))
    ensures UtilIn(t, [a, b, c]) == Get(Dict(t), a) + Get(Dict(t), b) + Get(Dict(t), c)
  {
    assert [a, b, c][1..] == [b, c] && a in [a, b, c] && b in [a, b, c] && c in [a, b, c];
    TwoIn(t, b, c);
  }

  /** The utilities the example lists: those of the itemsets with item 2 ... */
  lemma SampleUtilities(db: seq<Txn>)
    requires SampleShape(db)
    ensures Utility([2], db) == 16 && Utility([2, 1], db) == 18
    ensures Utility([2, 3], db) == 18 && Utility([2, 1, 3], db) == 12
  {
    OneIn(db[0], 2); OneIn(db[1], 2); OneIn(db[2], 2);
    UtilityOverThree([2], db);
    TwoIn(db[0], 2, 1); TwoIn(db[1], 2, 1); TwoIn(db[2], 2, 1);
    UtilityOverThree([2, 1], db);
    TwoIn(db[0], 2, 3); TwoIn(db[1], 2, 3); TwoIn(db[2], 2, 3);
    UtilityOverThree([2, 3], db);
    ThreeIn(db[0], 2, 1, 3); ThreeIn(db[1], 2, 1, 3); ThreeIn(db[2], 2, 1, 3);
    UtilityOverThree([2, 1, 3], db);
  }

  /** ... and those of the itemsets without it, all below 10. */
  lemma SampleShortfalls(db: seq<Txn>)
    requires SampleShape(db)
    ensures Utility([1], db) == 7 && Utility([3], db) == 8 && Utility([1, 3], db) == 7
  {
    OneIn(db[0], 1); OneIn(db[1], 1); OneIn(db[2], 1);
    UtilityOverThree([1], db);
    OneIn(db[0], 3); OneIn(db[1], 3); OneIn(db[2], 3);
    UtilityOverThree([3], db);
    TwoIn(db[0], 1, 3); TwoIn(db[1], 1, 3); TwoIn(db[2], 1, 3);
    UtilityOverThree([1, 3], db);
  }

  /** The position of an item in the engine's order 2, 1, 3. */
  function Place(x: Item): int {
    if x == 2 then 0 else if x == 1 then 1 else 2
  }

  /** Places strictly increase along X, so the n-th item sits at least n
      places in. */
  lemma {:induction false} PlaceGrows(X: seq<Item>, n: nat)
    requires n < |X| && forall i, j :: 0 <= i < j < |X| ==> Place(X[i]) < Place(X[j])
    ensures Place(X[n]) >= n
  {
    if n > 0 {
      PlaceGrows(X, n - 1);
    }
  }

  /** In the engine's order, an itemset of the sample's items is one of
      seven. */
  lemma OrderedItemsets(X: seq<Item>)
    requires |X| > 0 && forall x :: x in X ==> x == 1 || x == 2 || x == 3
    requires forall i, j :: 0 <= i < j < |X| ==> Place(X[i]) < Place(X[j])
    ensures X in [[2], [1], [3], [2, 1], [2, 3], [1, 3], [2, 1, 3]]
  {
    assert X[0] in X;
    if |X| > 1 {
      assert X[1] in X && Place(X[0]) < Place(X[1]);
    }
    if |X| > 2 {
      assert X[2] in X && Place(X[1]) < Place(X[2]);
    }
    PlaceGrows(X, |X| - 1);
    assert X[|X| - 1] in X;
    assert |X| == 1 ==> X == [X[0]];
    assert |X| == 2 ==> X == [X[0], X[1]];
    assert |X| == 3 ==> X == [X[0], X[1], X[2]];
  }

  predicate SampleItem(x: Item) {
    x == 1 || x == 2 || x == 3
  }

  /** On the sample's items the engine's order is 2, 1, 3. */
  lemma KeyPlace(db: seq<Txn>, x: Item, y: Item)
    requires SampleShape(db) && SampleItem(x) && SampleItem(y)
    ensures KeyLt(GlobalKey(db)(x), GlobalKey(db)(y)) <==> Place(x) < Place(y)
  {
    SampleTwus(db);
  }

  lemma InOrder(db: seq<Txn>, X: seq<Item>)
    requires SampleShape(db) && forall x :: x in X ==> SampleItem(x)
    ensures InTwuOrder(X, db) <==> forall i, j :: 0 <= i < j < |X| ==> Place(X[i]) < Place(X[j])
  {
    forall i, j | 0 <= i < j < |X|
      ensures KeyLt(GlobalKey(db)(X[i]), GlobalKey(db)(X[j])) <==> Place(X[i]) < Place(X[j])
    {
      assert X[i] in X && X[j] in X;
      KeyPlace(db, X[i], X[j]);
    }
  }

  /** Every item of a line of the sample is 1, 2 or 3. */
  lemma SampleKeys(db: seq<Txn>, k: int, x: Item)
    requires SampleShape(db) && 0 <= k < 3 && x in Dict(db[k])
    ensures SampleItem(x)
  {
  }

  /** The itemsets of the sample the engine reports: those with item 2. */
  predicate Expected(e: Found) {
    e == ([2], 16) || e == ([2, 1], 18) || e == ([2, 3], 18) || e == ([2, 1, 3], 12)
  }

  /** Every itemset that could be reported, in the engine's order and of
      utility at least 10, is one of the four. */
  ghost predicate OnlyFour(db: seq<Txn>) {
    forall X :: Occurs(X, db) && |X| > 0 && InTwuOrder(X, db) && Utility(X, db) >= 10 ==> Expected((X, Utility(X, db)))
  }

  /** The four are found in the last line, in the engine's order. */
  predicate FourFound(db: seq<Txn>) {
    && |db| == 3
    && Contains(db[2], [2]) && Contains(db[2], [2, 1]) && Contains(db[2], [2, 3]) && Contains(db[2], [2, 1, 3])
    && InTwuOrder([2], db) && InTwuOrder([2, 1], db) && InTwuOrder([2, 3], db) && InTwuOrder([2, 1, 3], db)
    && Utility([2], db) == 16 && Utility([2, 1], db) == 18 && Utility([2, 3], db) == 18 && Utility([2, 1, 3], db) == 12
  }

  lemma SampleOnlyFour(db: seq<Txn>)
    requires SampleShape(db)
    ensures OnlyFour(db)
  {
    SampleUtilities(db);
    SampleShortfalls(db);
    forall X | Occurs(X, db) && |X| > 0 && InTwuOrder(X, db) && Utility(X, db) >= 10
      ensures Expected((X, Utility(X, db)))
    {
      var k :| 0 <= k < |db| && Contains(db[k], X);
      forall x | x in X ensures SampleItem(x) {
        SampleKeys(db, k, x);
      }
      InOrder(db, X);
      OrderedItemsets(X);
      Classify(db, X);
    }
  }

  /** Of the seven itemsets, those of utility at least 10 are the four. */
  lemma Classify(db: seq<Txn>, X: seq<Item>)
    requires X in [[2], [1], [3], [2, 1], [2, 3], [1, 3], [2, 1, 3]] && Utility(X, db) >= 10
    requires Utility([2], db) == 16 && Utility([2, 1], db) == 18
    requires Utility([2, 3], db) == 18 && Utility([2, 1, 3], db) == 12
    requires Utility([1], db) == 7 && Utility([3], db) == 8 && Utility([1, 3], db) == 7
    ensures Expected((X, Utility(X, db)))
  {
  }

  lemma SampleFourFound(db: seq<Txn>)
    requires SampleShape(db)
    ensures FourFound(db)
  {
    SampleUtilities(db);
    OneIn(db[2], 2);
    TwoIn(db[2], 2, 1);
    TwoIn(db[2], 2, 3);
    ThreeIn(db[2], 2, 1, 3);
    InOrder(db, [2]);
    InOrder(db, [2, 1]);
    InOrder(db, [2, 3]);
    InOrder(db, [2, 1, 3]);
  }

  /** A one-line witness of an itemset, in the engine's order and of
      utility at least 10, is reported with its utility. */
  lemma Reported(db: seq<Txn>, X: seq<Item>)
    requires WellFormedDb(db) && |X| > 0 && InTwuOrder(X, db)
    requires |db| == 3 && Contains(db[2], X) && Utility(X, db) >= 10
    ensures (X, Utility(X, db)) in Mine(db, 10)
  {
    MineComplete(db, 10, X);
  }

  /** The engine reports the four and nothing else. */
  lemma ExactlyFour(db: seq<Txn>)
    requires WellFormedDb(db) && FourFound(db) && OnlyFour(db)
    ensures ([2], 16) in Mine(db, 10) && ([2, 1], 18) in Mine(db, 10)
    ensures ([2, 3], 18) in Mine(db, 10) && ([2, 1, 3], 12) in Mine(db, 10)
    ensures forall e :: e in Mine(db, 10) ==> Expected(e)
  {
    Reported(db, [2]);
    Reported(db, [2, 1]);
    Reported(db, [2, 3]);
    Reported(db, [2, 1, 3]);
    WellFormedSimple(db);
    forall e | e in Mine(db, 10) ensures Expected(e) {
      MineSound(db, 10, e);
    }
  }

  lemma WellFormedSimple(db: seq<Txn>)
    requires WellFormedDb(db)
    ensures SimpleDb(db)
  {
    forall k | 0 <= k < |db| ensures Simple(db[k]) {
      assert WellFormed(db[k]);
    }
  }

  /** The sample is well formed, and the four are its only candidates. */
  lemma SampleFacts()
    ensures WellFormedDb(SampleDb()) && FourFound(SampleDb()) && OnlyFour(SampleDb())
  {
    SampleDicts();
    SampleFourFound(SampleDb());
    SampleOnlyFour(SampleDb());
  }

  /** On the sample at threshold 10, `huiminer_one_phase_from_parsed`
      returns exactly {2}:16, {1, 2}:18, {2, 3}:18 and {1, 2, 3}:12, each
      written in the engine's order; {1}, {3} and {1, 3} fall short. */
  lemma SampleMine()
    ensures ([2], 16) in Mine(SampleDb(), 10) && ([2, 1], 18) in Mine(SampleDb(), 10)
    ensures ([2, 3], 18) in Mine(SampleDb(), 10) && ([2, 1, 3], 12) in Mine(SampleDb(), 10)
    ensures forall e :: e in Mine(SampleDb(), 10) ==> Expected(e)
  {
    SampleFacts();
    ExactlyFour(SampleDb());
  }
}
