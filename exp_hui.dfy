/** The experiment version of HUI-Miner (experiments/hui.py): TWU accumulation
    while the lines are parsed, revised transactions over the items whose TWU
    reaches the threshold, one utility list per item in dictionary order, the
    prefix-corrected `construct` of the two-item lists and the recursive
    `huiMiner`, which appends what it finds to a shared result list and raises
    KeyError when a prefix lookup fails. */
module ExpHui {
  import opened Db
  import opened Ordering
  import opened UtilityLists
  import ExpTwoPhase

  /** A parsed line `(tid, items, item_utils, total_util)`. */
  datatype Line = Line(tid: nat, txn: Txn)

  /** An `(item, utility)` pair of a line. */
  type Pair = (Item, int)

  /** A reported `(itemset, utility)`. */
  type Found = (seq<Item>, int)

  /** The `(item, utility list)` pairs the miner walks. */
  type Lists = seq<(Item, seq<Entry>)>

  // ---------------------------------------------------------------------
  // parse_transactions

  /** The lines numbered from 0, as `enumerate(lines)` numbers them. */
  function Numbered(db: seq<Txn>): (r: seq<Line>)
    ensures |r| == |db| && forall k :: 0 <= k < |db| ==> r[k] == Line(k, db[k])
  {
    seq(|db|, k requires 0 <= k < |db| => Line(k, db[k]))
  }

  /** `parse_transactions(lines, TWU, parsed_trans)` on lines already split
      into items, utilities and total: every line is appended with its index
      as tid, and every occurrence of an item adds the line's total to its TWU
      (a `defaultdict(float)`, so a new item starts at 0). */
  method ParseTransactions(db: seq<Txn>, twu0: map<Item, int>, parsed0: seq<Line>)
    returns (twu: map<Item, int>, parsed: seq<Line>)
    ensures |parsed| == |parsed0| + |db| && parsed[..|parsed0|] == parsed0
    ensures forall k :: 0 <= k < |db| ==> parsed[|parsed0| + k] == Line(k, db[k])
    ensures forall x :: x in twu <==> x in twu0 || x in ExpTwoPhase.ListedItems(db)
    ensures forall x :: x in twu ==> twu[x] == Get(twu0, x) + OccurrenceTwu(x, db)
  {
    twu, parsed := twu0, parsed0;
    for tid := 0 to |db|
      invariant |parsed| == |parsed0| + tid && parsed[..|parsed0|] == parsed0
      invariant forall k :: 0 <= k < tid ==> parsed[|parsed0| + k] == Line(k, db[k])
      invariant forall x :: x in twu <==> x in twu0 || x in ExpTwoPhase.ListedItems(db[..tid])
      invariant forall x :: x in twu ==> twu[x] == Get(twu0, x) + OccurrenceTwu(x, db[..tid])
    {
      parsed := parsed + [Line(tid, db[tid])];
      ghost var before := twu;
      twu := ExpTwoPhase.AddOccurrences(twu, db[tid].items, db[tid].total);
      ExpTwoPhase.ListedItemsSnoc(db, tid);
      assert db[..tid + 1][..tid] == db[..tid];
      forall x | x in twu ensures twu[x] == Get(twu0, x) + OccurrenceTwu(x, db[..tid + 1]) {
        if x !in before {
          ExpTwoPhase.AbsentOccurrence(x, db[..tid]);
        }
      }
    }
    assert db[..|db|] == db;
  }

  /** The TWU table of the whole database, as parsing leaves it. */
  function TwuTable(db: seq<Txn>): map<Item, int> {
    map x | x in ExpTwoPhase.ListedItems(db) :: OccurrenceTwu(x, db)
  }

  // ---------------------------------------------------------------------
  // revise

  /** `kept`: the items whose TWU reaches the threshold. */
  function Kept(twu: map<Item, int>, minUtil: int): set<Item> {
    set x | x in twu && twu[x] >= minUtil
  }

  /** The key of `order`: ascending TWU, ties by ascending item. Sorting by
      an item's position in `sorted(kept, key=lambda i: (TWU[i], i))` is
      sorting by this key, which no two kept items share. */
  function OrderKey(twu: map<Item, int>): Pair -> (int, int) {
    (p: Pair) => (Get(twu, p.0), p.0)
  }

  /** `zip(items, utils)`: the pairs up to the shorter of the two. */
  function ZipPairs(items: seq<Item>, utils: seq<int>): (r: seq<Pair>)
    ensures |r| == Min(|items|, |utils|)
    ensures forall k :: 0 <= k < |r| ==> r[k] == (items[k], utils[k])
  {
    seq(Min(|items|, |utils|), k requires 0 <= k < Min(|items|, |utils|) => (items[k], utils[k]))
  }

  /** `[(item, util) for item, util in pairs if item in kept]`. */
  function KeepPairs(ps: seq<Pair>, kept: set<Item>): (r: seq<Pair>)
    ensures forall p :: p in r <==> p in ps && p.0 in kept
    ensures |r| <= |ps|
  {
    if |ps| == 0 then []
    else (if ps[0].0 in kept then [ps[0]] else []) + KeepPairs(ps[1..], kept)
  }

  /** The first and the second components: `items, utils = zip(*seq)`. */
  function Firsts(ps: seq<Pair>): (r: seq<Item>)
    ensures |r| == |ps| && forall k :: 0 <= k < |ps| ==> r[k] == ps[k].0
  {
    seq(|ps|, k requires 0 <= k < |ps| => ps[k].0)
  }

  function Seconds(ps: seq<Pair>): (r: seq<int>)
    ensures |r| == |ps| && forall k :: 0 <= k < |ps| ==> r[k] == ps[k].1
  {
    seq(|ps|, k requires 0 <= k < |ps| => ps[k].1)
  }

  /** `filtered` of one line, after `filtered.sort(key=lambda x: order[x[0]])`. */
  function Filtered(t: Txn, twu: map<Item, int>, minUtil: int): seq<Pair> {
    SortBy(KeepPairs(ZipPairs(t.items, t.utils), Kept(twu, minUtil)), OrderKey(twu))
  }

  /** `revise(parsed_trans, TWU, minutil)`: each line with its kept pairs in
      order, dropped when none is kept. */
  function Revise(parsed: seq<Line>, twu: map<Item, int>, minUtil: int): (rev: seq<RevTxn>)
    ensures AllAligned(rev)
  {
    if |parsed| == 0 then []
    else
      var r0 := Revise(parsed[..|parsed| - 1], twu, minUtil);
      var line := parsed[|parsed| - 1];
      var f := Filtered(line.txn, twu, minUtil);
      var r := r0 + (if f == [] then [] else [RevTxn(line.tid, Firsts(f), Seconds(f))]);
      assert AllAligned(r) by {
        forall k | 0 <= k < |r| ensures Aligned(r[k]) {
          if k < |r0| { assert r[k] == r0[k]; }
        }
      }
      r
  }

  // ---------------------------------------------------------------------
  // build_utility_lists

  /** A Python dictionary from items to utility lists: its keys in insertion
      order and its key-to-value map. */
  datatype Table = Table(keys: seq<Item>, lists: map<Item, seq<Entry>>)

  predicate TableOk(t: Table) {
    Distinct(t.keys) && (forall x :: x in t.lists ==> x in t.keys) && (forall i :: 0 <= i < |t.keys| ==> t.keys[i] in t.lists)
  }

  /** `ULs.setdefault(item, []).append(e)`. */
  function AppendTo(t: Table, x: Item, e: Entry): (r: Table)
    requires TableOk(t)
    ensures TableOk(r)
    ensures forall y :: y in r.lists <==> y in t.lists || y == x
    ensures forall y :: y in r.lists ==> r.lists[y] == (if y in t.lists then t.lists[y] else []) + (if y == x then [e] else [])
  {
    if x in t.lists then Table(t.keys, t.lists[x := t.lists[x] + [e]])
    else
      assert Distinct(t.keys + [x]) by {
        forall i, j | 0 <= i < j < |t.keys + [x]| ensures (t.keys + [x])[i] != (t.keys + [x])[j] {
          if j == |t.keys| { assert (t.keys + [x])[i] == t.keys[i]; }
        }
      }
      Table(t.keys + [x], t.lists[x := [e]])
  }

  /** The entries of the first n positions of a revised transaction, each
      with the utility of the positions after it as rutil. */
  function AppendRow(t: Table, rt: RevTxn, n: nat): (r: Table)
    requires TableOk(t) && Aligned(rt) && n <= |rt.items|
    ensures TableOk(r)
  {
    if n == 0 then t
    else AppendTo(AppendRow(t, rt, n - 1), rt.items[n - 1], Entry(rt.tid, rt.utils[n - 1], Sum(rt.utils[n..])))
  }

  /** `build_utility_lists(revised_trans)`. */
  function BuildUtilityLists(rev: seq<RevTxn>): (t: Table)
    requires AllAligned(rev)
    ensures TableOk(t)
  {
    if |rev| == 0 then Table([], map[])
    else
      var last := rev[|rev| - 1];
      assert Aligned(last);
      AllAlignedPrefix(rev, |rev| - 1);
      AppendRow(BuildUtilityLists(rev[..|rev| - 1]), last, |last.items|)
  }

  /** `UL_map.items()`: the pairs in key order. */
  function ItemsOf(t: Table): (r: Lists)
    requires TableOk(t)
    ensures |r| == |t.keys| && forall i :: 0 <= i < |r| ==> r[i] == (t.keys[i], t.lists[t.keys[i]])
  {
    seq(|t.keys|, i requires 0 <= i < |t.keys| => (t.keys[i], t.lists[t.keys[i]]))
  }

  // ---------------------------------------------------------------------
  // construct

  /** `{tid: (tid, iu, ru) for tid, iu, ru in ul}.get(tid)`: the last entry
      with that tid, since a later one overrides an earlier one. */
  function Find(ul: seq<Entry>, tid: nat): (r: Option<Entry>)
    ensures r.Some? ==> r.value in ul && r.value.tid == tid
  {
    if |ul| == 0 then None
    else if ul[|ul| - 1].tid == tid then Some(ul[|ul| - 1])
    else Find(ul[..|ul| - 1], tid)
  }

  /** The entry kept for (tid, iu, ru): `if new_iu + ru_y >= 0`. */
  function KeepEntry(tid: nat, iu: int, ru: int): seq<Entry> {
    if iu + ru >= 0 then [Entry(tid, iu, ru)] else []
  }

  /** What one entry of x's list contributes; None is the KeyError of
      `mapP[tid]` when the prefix list lacks that tid. */
  function ConstructStep(p: seq<Entry>, ex: Entry, y: seq<Entry>): (r: Option<seq<Entry>>)
    ensures r.None? <==> Find(y, ex.tid).Some? && p != [] && Find(p, ex.tid).None?
    ensures r.Some? ==> |r.value| <= 1 && forall e :: e in r.value ==>
      e.tid == ex.tid && Find(y, ex.tid).Some? && e.rutil == Find(y, ex.tid).value.rutil && e.iutil + e.rutil >= 0
  {
    match Find(y, ex.tid)
    case None => Some([])
    case Some(ey) =>
      if p == [] then Some(KeepEntry(ex.tid, ex.iutil + ey.iutil, ey.rutil))
      else
        match Find(p, ex.tid)
        case None => None
        case Some(ep) => Some(KeepEntry(ex.tid, ex.iutil + ey.iutil - ep.iutil, ey.rutil))
  }

  /** `construct(prefix_ul, x_ul, y_ul)`, or None when it raises KeyError. */
  function Construct(p: seq<Entry>, x: seq<Entry>, y: seq<Entry>): Option<seq<Entry>> {
    if |x| == 0 then Some([])
    else
      match ConstructStep(p, x[0], y)
      case None => None
      case Some(h) =>
        match Construct(p, x[1..], y)
        case None => None
        case Some(rest) => Some(h + rest)
  }

  /** `construct` raises exactly when one of x's entries does; otherwise it
      keeps at most one entry per entry of x, each with a tid of x and a
      nonnegative iutil + rutil. */
  lemma {:induction false} ConstructSpec(p: seq<Entry>, x: seq<Entry>, y: seq<Entry>)
    ensures Construct(p, x, y).None? <==> exists i :: 0 <= i < |x| && ConstructStep(p, x[i], y).None?
    ensures Construct(p, x, y).Some? ==> |Construct(p, x, y).value| <= |x|
    ensures Construct(p, x, y).Some? ==> forall e :: e in Construct(p, x, y).value ==>
      e.iutil + e.rutil >= 0 && exists i :: 0 <= i < |x| && x[i].tid == e.tid
  {
    if |x| > 0 {
      ConstructSpec(p, x[1..], y);
      forall i | 0 <= i < |x[1..]| ensures x[1..][i] == x[i + 1] {
      }
    }
  }

  // ---------------------------------------------------------------------
  // huiMiner

  /** The extension loop of `huiMiner` for x over the later pairs ys: the
      nonempty constructed lists, in order, or None on KeyError. */
  function Extensions(p: seq<Entry>, xul: seq<Entry>, ys: Lists): (r: Option<Lists>)
    ensures r.Some? ==> |r.value| <= |ys|
  {
    if |ys| == 0 then Some([])
    else
      match Extensions(p, xul, ys[..|ys| - 1])
      case None => None
      case Some(exts) =>
        match Construct(p, xul, ys[|ys| - 1].1)
        case None => None
        case Some(nu) => Some(exts + (if nu != [] then [(ys[|ys| - 1].0, nu)] else []))
  }

  lemma ThenEmpty(r: Option<seq<Found>>)
    ensures Then([], r) == r
  {
    if r.Some? {
      assert [] + r.value == r.value;
    }
  }

  /** Once a prefix of the later pairs raises, the whole loop does. */
  lemma {:induction false} ExtensionsFail(p: seq<Entry>, xul: seq<Entry>, ys: Lists, j: nat)
    requires j <= |ys| && Extensions(p, xul, ys[..j]).None?
    ensures Extensions(p, xul, ys).None?
    decreases |ys| - j
  {
    if j == |ys| {
      assert ys[..j] == ys;
    } else {
      assert ys[..j + 1][..j] == ys[..j];
      ExtensionsFail(p, xul, ys, j + 1);
    }
  }

  /** `a` followed by what r holds, or None when r is None. */
  function Then(a: seq<Found>, r: Option<seq<Found>>): Option<seq<Found>> {
    match r
    case None => None
    case Some(s) => Some(a + s)
  }

  lemma ThenThen(a: seq<Found>, b: seq<Found>, r: Option<seq<Found>>)
    ensures Then(a, Then(b, r)) == Then(a + b, r)
  {
    if r.Some? {
      assert a + (b + r.value) == (a + b) + r.value;
    }
  }

  /** `huiMiner(prefix, ULs, minutil, prefix_ul)`: what it appends to
      `results`, or None when a KeyError escapes. An absent `prefix_ul` is
      the empty list, as `prefix_ul or []` makes it. */
  function Mine(prefix: seq<Item>, uls: Lists, minUtil: int, pul: seq<Entry>): Option<seq<Found>>
    decreases |uls|, 1
  {
    MineFrom(prefix, uls, minUtil, pul, 0)
  }

  /** The iterations of the loop of `huiMiner` from position i on. */
  function MineFrom(prefix: seq<Item>, uls: Lists, minUtil: int, pul: seq<Entry>, i: nat): Option<seq<Found>>
    requires i <= |uls|
    decreases |uls|, 0, |uls| - i
  {
    if i == |uls| then Some([])
    else
      match Branch(prefix, uls, minUtil, pul, i)
      case None => None
      case Some(b) => Then(b, MineFrom(prefix, uls, minUtil, pul, i + 1))
  }

  /** One iteration of the loop: the pair for prefix + x when its utility
      reaches the threshold, then, when the iutil + rutil sum does, the
      search of x's nonempty extensions by the later items. */
  function Branch(prefix: seq<Item>, uls: Lists, minUtil: int, pul: seq<Entry>, i: nat): Option<seq<Found>>
    requires i < |uls|
    decreases |uls|, 0, 0
  {
    var x, xul := uls[i].0, uls[i].1;
    var here := if SumIu(xul) >= minUtil then [(prefix + [x], SumIu(xul))] else [];
    if SumIuRu(xul) < minUtil then Some(here)
    else
      match Extensions(pul, xul, uls[i + 1..])
      case None => None
      case Some(exts) =>
        if exts == [] then Some(here) else Then(here, Mine(prefix + [x], exts, minUtil, xul))
  }

  /** The imperative `huiMiner`: appends to results what Mine describes, and
      reports a KeyError as None. */
  method HuiMiner(prefix: seq<Item>, uls: Lists, minUtil: int, pul: seq<Entry>, results0: seq<Found>)
    returns (results: Option<seq<Found>>)
    ensures results == Then(results0, Mine(prefix, uls, minUtil, pul))
    decreases |uls|
  {
    var acc := results0;
    for i := 0 to |uls|
      invariant Then(acc, MineFrom(prefix, uls, minUtil, pul, i)) == Then(results0, Mine(prefix, uls, minUtil, pul))
    {
      ghost var before := acc;
      var x, xul := uls[i].0, uls[i].1;
      var sumIu, sumIuRu := SumIu(xul), SumIuRu(xul);
      var here := if sumIu >= minUtil then [(prefix + [x], sumIu)] else [];
      acc := acc + here;
      ghost var b := here;
      if sumIuRu >= minUtil {
        var exts := CollectExtensions(pul, xul, uls[i + 1..]);
        if exts.None? {
          return None;
        }
        if exts.value != [] {
          var sub := HuiMiner(prefix + [x], exts.value, minUtil, xul, acc);
          if sub.None? {
            return None;
          }
          b := here + Mine(prefix + [x], exts.value, minUtil, xul).value;
          acc := sub.value;
        }
      }
      assert Branch(prefix, uls, minUtil, pul, i) == Some(b) && acc == before + b;
      ThenThen(before, b, MineFrom(prefix, uls, minUtil, pul, i + 1));
    }
    assert acc + [] == acc;
    results := Some(acc);
  }

  /** The inner loop `for y_item, yUL in ULs[i+1:]` of `huiMiner`. */
  method CollectExtensions(p: seq<Entry>, xul: seq<Entry>, ys: Lists) returns (r: Option<Lists>)
    ensures r == Extensions(p, xul, ys)
  {
    var exts: Lists := [];
    for j := 0 to |ys|
      invariant Extensions(p, xul, ys[..j]) == Some(exts)
    {
      assert ys[..j + 1][..j] == ys[..j] && ys[..j + 1][j] == ys[j];
      var nu := Construct(p, xul, ys[j].1);
      if nu.None? {
        ExtensionsFail(p, xul, ys, j + 1);
        return None;
      }
      assert Extensions(p, xul, ys[..j + 1])
        == Some(exts + (if nu.value != [] then [(ys[j].0, nu.value)] else []));
      if nu.value != [] {
        exts := exts + [(ys[j].0, nu.value)];
      } else {
        assert exts + [] == exts;
      }
    }
    assert ys[..|ys|] == ys;
    r := Some(exts);
  }

  // ---------------------------------------------------------------------
  // get_high_utility_itemsets after the file is read

  /** The key of `sorted(UL_map.items(), key=lambda x: TWU[x[0]])`: TWU only,
      so items of equal TWU keep their dictionary order. */
  function TwuOnly(twu: map<Item, int>): (key: ((Item, seq<Entry>)) -> (int, int))
    ensures forall a: (Item, seq<Entry>), b: (Item, seq<Entry>) :: Get(twu, a.0) == Get(twu, b.0) ==> key(a) == key(b)
  {
    (p: (Item, seq<Entry>)) => (Get(twu, p.0), 0)
  }

  /** The order revise puts items in: TWU, ties by item. */
  function TwuThenItem(twu: map<Item, int>): (key: ((Item, seq<Entry>)) -> (int, int))
    ensures forall a: (Item, seq<Entry>), b: (Item, seq<Entry>) :: key(a) == key(b) ==> a.0 == b.0
    ensures forall a: (Item, seq<Entry>), b: (Item, seq<Entry>) :: Get(twu, a.0) < Get(twu, b.0) ==> key(a).0 < key(b).0
  {
    (p: (Item, seq<Entry>)) => (Get(twu, p.0), p.0)
  }

  /** The top-level lists, ordered by the given key. */
  function TopLists(db: seq<Txn>, minUtil: int, key: ((Item, seq<Entry>)) -> (int, int)): Lists {
    var twu := TwuTable(db);
    var rev := Revise(Numbered(db), twu, minUtil);
    SortBy(ItemsOf(BuildUtilityLists(rev)), key)
  }

  /** The pipeline as written: the lists ordered by TWU only. */
  function MineAsWritten(db: seq<Txn>, minUtil: int): Option<seq<Found>> {
    Mine([], TopLists(db, minUtil, TwuOnly(TwuTable(db))), minUtil, [])
  }

  /** The pipeline with the lists in the order of the revised transactions. */
  function MineCorrected(db: seq<Txn>, minUtil: int): Option<seq<Found>> {
    Mine([], TopLists(db, minUtil, TwuThenItem(TwuTable(db))), minUtil, [])
  }

  /** `get_high_utility_itemsets` on parsed lines, with the top-level lists
      sorted by (TWU, item) so that their order agrees with revise's. */
  method GetHighUtilityItemsetsCorrected(db: seq<Txn>, minUtil: int) returns (huis: Option<seq<Found>>)
    ensures huis == MineCorrected(db, minUtil)
  {
    var twu, parsed := ParseTransactions(db, map[], []);
    assert twu == TwuTable(db) by {
      forall x | x in twu ensures twu[x] == TwuTable(db)[x] {
      }
    }
    assert parsed == Numbered(db);
    var revised := Revise(parsed, twu, minUtil);
    var ulMap := BuildUtilityLists(revised);
    var sortedUls := SortBy(ItemsOf(ulMap), TwuThenItem(twu));
    huis := HuiMiner([], sortedUls, minUtil, [], []);
    ThenEmpty(Mine([], sortedUls, minUtil, []));
  }
}
