/** `huiminer_one_phase_from_parsed` of hui.py (lines 42-158): the one-phase
    HUI-Miner. Each step of the function is a method proved equal to a
    specification function; `Mine` composes the specification functions and
    HuiMinerProofs proves what the result means. */
module HuiMiner {
  import opened Db
  import opened Ordering
  import opened UtilityLists

  /** An emitted itemset with the utility summed from its utility list. */
  type Found = (seq<Item>, int)

  lemma Assoc<T>(a: seq<T>, b: seq<T>, c: seq<T>)
    ensures a + (b + c) == (a + b) + c
  {
  }

  // ---------------------------------------------------------------------
  // Step 1: the TWU of every item

  /** The items in order of first appearance: the key order of `item_twu`. */
  function FirstSeen(db: seq<Txn>): (r: seq<Item>)
    ensures forall x :: x in r <==> Occurs([x], db)
    ensures Distinct(r)
  {
    if |db| == 0 then []
    else
      var r0 := FirstSeen(db[..|db| - 1]);
      forall x ensures Occurs([x], db) <==> Occurs([x], db[..|db| - 1]) || Contains(db[|db| - 1], [x]) {
        OccursSnoc([x], db);
      }
      AddNew(r0, DictKeys(db[|db| - 1]))
  }

  /** `item_twu`: every item of the database mapped to its TWU. */
  function ItemTwu(db: seq<Txn>): map<Item, int> {
    map x | x in FirstSeen(db) :: TWU([x], db)
  }

  /** The inner loop of step 1: every key of one transaction adds the
      transaction total to its entry, new keys joining the key order. */
  method AddTotal(twu0: map<Item, int>, seen0: seq<Item>, keys: seq<Item>, total: int)
    returns (twu: map<Item, int>, seen: seq<Item>)
    requires Distinct(keys)
    requires forall x :: x in twu0 <==> x in seen0
    ensures seen == AddNew(seen0, keys)
    ensures forall x :: x in twu <==> x in seen
    ensures forall x :: x in twu ==> twu[x] == Get(twu0, x) + (if x in keys then total else 0)
  {
    twu, seen := twu0, seen0;
    for j := 0 to |keys|
      invariant seen == AddNew(seen0, keys[..j])
      invariant forall x :: x in twu <==> x in seen
      invariant forall x :: x in twu ==> twu[x] == Get(twu0, x) + (if x in keys[..j] then total else 0)
    {
      assert keys[..j + 1][..j] == keys[..j];
      var item := keys[j];
      assert item !in keys[..j];
      if item !in twu {
        seen := seen + [item];
      }
      twu := twu[item := Get(twu, item) + total];
    }
    assert keys[..|keys|] == keys;
  }

  method ComputeItemTwu(db: seq<Txn>) returns (twu: map<Item, int>, seen: seq<Item>)
    ensures seen == FirstSeen(db)
    ensures twu == ItemTwu(db)
  {
    twu := map[];
    seen := [];
    for tid := 0 to |db|
      invariant seen == FirstSeen(db[..tid])
      invariant forall x :: x in twu <==> x in seen
      invariant forall x :: x in twu ==> twu[x] == TWU([x], db[..tid])
    {
      assert db[..tid + 1][..tid] == db[..tid];
      var t := db[tid];
      ghost var before := twu;
      twu, seen := AddTotal(twu, seen, DictKeys(t), t.total);
      TwuStep(before, twu, db, tid);
    }
    assert db[..|db|] == db;
    IsItemTwu(twu, seen, db);
  }

  /** One more transaction adds its total to the TWU of each of its items. */
  lemma TwuStep(before: map<Item, int>, after: map<Item, int>, db: seq<Txn>, tid: nat)
    requires tid < |db|
    requires forall x :: x in before <==> x in FirstSeen(db[..tid])
    requires forall x :: x in before ==> before[x] == TWU([x], db[..tid])
    requires forall x :: x in after ==> after[x] == Get(before, x) + (if x in DictKeys(db[tid]) then db[tid].total else 0)
    ensures forall x :: x in after ==> after[x] == TWU([x], db[..tid + 1])
  {
    assert db[..tid + 1][..tid] == db[..tid];
    forall x | x in after ensures after[x] == TWU([x], db[..tid + 1]) {
      if x !in before {
        AbsentIsZero([x], db[..tid]);
      }
      assert Contains(db[tid], [x]) <==> x in Dict(db[tid]);
    }
  }

  lemma IsItemTwu(twu: map<Item, int>, seen: seq<Item>, db: seq<Txn>)
    requires seen == FirstSeen(db)
    requires forall x :: x in twu <==> x in seen
    requires forall x :: x in twu ==> twu[x] == TWU([x], db)
    ensures twu == ItemTwu(db)
  {
    var spec := ItemTwu(db);
    forall x ensures x in twu <==> x in spec {
    }
    forall x | x in twu ensures twu[x] == spec[x] {
    }
  }

  // ---------------------------------------------------------------------
  // Step 2: the promising items in the global order

  /** `[item for item, twu in item_twu.items() if twu >= min_utility]`. */
  function Promising(seen: seq<Item>, twu: map<Item, int>, minUtil: int): (r: seq<Item>)
    ensures forall x :: x in r <==> x in seen && x in twu && twu[x] >= minUtil
    ensures Distinct(seen) ==> Distinct(r)
  {
    if |seen| == 0 then []
    else
      DistinctTail(seen);
      (if seen[0] in twu && twu[seen[0]] >= minUtil then [seen[0]] else [])
      + Promising(seen[1..], twu, minUtil)
  }

  /** The sort key of the global order: descending TWU, then ascending id. */
  function TwuKeyOf(twu: map<Item, int>): Item -> (int, int) {
    x => (-Get(twu, x), x)
  }

  /** `item_order_index`: the position of every promising item. */
  function OrderIndex(P: seq<Item>): (ord: map<Item, nat>)
    ensures forall x :: x in ord <==> x in P
    ensures Distinct(P) ==> forall k :: 0 <= k < |P| ==> P[k] in ord && ord[P[k]] == k
  {
    map x | x in P :: IndexOf(P, x)
  }

  method PromisingItems(twu: map<Item, int>, seen: seq<Item>, minUtil: int) returns (P: seq<Item>)
    ensures P == (var q := Promising(seen, twu, minUtil); if q == [] then [] else SortBy(q, TwuKeyOf(twu)))
  {
    P := [];
    assert seen[0..] == seen;
    for k := 0 to |seen|
      invariant P + Promising(seen[k..], twu, minUtil) == Promising(seen, twu, minUtil)
    {
      assert seen[k..][1..] == seen[k + 1..];
      var head := if seen[k] in twu && twu[seen[k]] >= minUtil then [seen[k]] else [];
      assert Promising(seen[k..], twu, minUtil) == head + Promising(seen[k + 1..], twu, minUtil);
      Assoc(P, head, Promising(seen[k + 1..], twu, minUtil));
      P := P + head;
    }
    assert seen[|seen|..] == [];
    assert P == Promising(seen, twu, minUtil);
    if P == [] {
      return;
    }
    P := SortBy(P, TwuKeyOf(twu));
  }

  // ---------------------------------------------------------------------
  // Step 3: revised transactions

  function Rank(ord: map<Item, nat>, x: Item): nat {
    if x in ord then ord[x] else 0
  }

  function RankKey(ord: map<Item, nat>): Item -> (int, int) {
    x => (Rank(ord, x), 0)
  }

  /** `[item for item in ordered_items if item in item_order_index]`. */
  function Filter(items: seq<Item>, ord: map<Item, nat>): (r: seq<Item>)
    ensures forall x :: x in r <==> x in items && x in ord
    ensures Distinct(items) ==> Distinct(r)
  {
    if |items| == 0 then []
    else
      DistinctTail(items);
      (if items[0] in ord then [items[0]] else []) + Filter(items[1..], ord)
  }

  /** `[trans_dict[item] for item in s]`. */
  function UtilsOf(d: map<Item, int>, s: seq<Item>): (r: seq<int>)
    ensures |r| == |s| && forall k :: 0 <= k < |s| ==> r[k] == Get(d, s[k])
  {
    seq(|s|, k requires 0 <= k < |s| => Get(d, s[k]))
  }

  /** A transaction with only its promising items, in the global order. */
  function ReviseOne(t: Txn, tid: nat, ord: map<Item, nat>): (rt: RevTxn)
    ensures Aligned(rt) && rt.tid == tid
  {
    var kept := SortBy(Filter(t.items, ord), RankKey(ord));
    RevTxn(tid, kept, UtilsOf(Dict(t), kept))
  }

  /** The revised database: transactions left without promising items drop out. */
  function Revise(db: seq<Txn>, ord: map<Item, nat>): (rev: seq<RevTxn>)
    ensures AllAligned(rev)
  {
    if |db| == 0 then []
    else
      var r0 := Revise(db[..|db| - 1], ord);
      var last := db[|db| - 1];
      r0 + (if Filter(last.items, ord) == [] then [] else [ReviseOne(last, |db| - 1, ord)])
  }

  method ReviseTransactions(db: seq<Txn>, ord: map<Item, nat>) returns (rev: seq<RevTxn>)
    ensures rev == Revise(db, ord)
  {
    rev := [];
    for tid := 0 to |db|
      invariant rev == Revise(db[..tid], ord)
    {
      assert db[..tid + 1][..tid] == db[..tid];
      var t := db[tid];
      var filtered := Filter(t.items, ord);
      if filtered == [] {
        continue;
      }
      var kept := SortBy(filtered, RankKey(ord));
      rev := rev + [RevTxn(tid, kept, UtilsOf(Dict(t), kept))];
    }
    assert db[..|db|] == db;
  }

  // ---------------------------------------------------------------------
  // Step 4: the utility lists of the single items

  /** `suffix_util`: at each position, the utility of the positions after it. */
  method SuffixSums(utils: seq<int>) returns (suffix: seq<int>)
    ensures |suffix| == |utils|
    ensures forall k :: 0 <= k < |utils| ==> suffix[k] == Sum(utils[k + 1..])
  {
    suffix := seq(|utils|, _ => 0);
    var suffixSum := 0;
    var idx := |utils|;
    while idx > 0
      invariant 0 <= idx <= |utils| && |suffix| == |utils|
      invariant suffixSum == Sum(utils[idx..])
      invariant forall k :: idx <= k < |utils| ==> suffix[k] == Sum(utils[k + 1..])
    {
      idx := idx - 1;
      suffix := suffix[idx := suffixSum];
      assert utils[idx..][1..] == utils[idx + 1..];
      suffixSum := suffixSum + utils[idx];
    }
  }

  /** `utility_lists` before sorting: one list per item present. */
  function UtilityListsOf(rev: seq<RevTxn>): map<Item, seq<Entry>>
    requires AllAligned(rev)
  {
    map x | x in ItemsOfRev(rev) :: Occurrences(rev, x)
  }

  const TidKey: Entry -> (int, int) := (e: Entry) => (e.tid, 0)

  /** `utility_lists[item].sort(key=lambda x: x[0])` for every item. */
  function SortLists(m: map<Item, seq<Entry>>): map<Item, seq<Entry>> {
    map x | x in m :: SortBy(m[x], TidKey)
  }

  /** The inner loop of step 4: one revised transaction appends an entry to
      the list of each of its items. */
  method AppendEntries(lists0: map<Item, seq<Entry>>, rt: RevTxn, suffix: seq<int>) returns (lists: map<Item, seq<Entry>>)
    requires Aligned(rt)
    requires |suffix| == |rt.utils| && forall k :: 0 <= k < |rt.utils| ==> suffix[k] == Sum(rt.utils[k + 1..])
    requires forall x :: x in lists0 ==> lists0[x] != []
    ensures forall x :: x in lists ==> lists[x] != []
    ensures forall x :: ListOf(lists, x) == ListOf(lists0, x) + OccUpTo(rt, x, |rt.items|)
  {
    lists := lists0;
    for idx := 0 to |rt.items|
      invariant AppendedUpTo(lists0, lists, rt, idx)
    {
      var item := rt.items[idx];
      var entry := Entry(rt.tid, rt.utils[idx], suffix[idx]);
      AppendStep(lists0, lists, rt, idx, entry);
      lists := lists[item := ListOf(lists, item) + [entry]];
    }
  }

  /** The lists after the first idx items of rt are appended: none is
      empty, and each is its old list followed by those occurrences. */
  ghost predicate AppendedUpTo(lists0: map<Item, seq<Entry>>, lists: map<Item, seq<Entry>>, rt: RevTxn, idx: nat)
    requires Aligned(rt) && idx <= |rt.items|
  {
    && (forall x :: x in lists ==> lists[x] != [])
    && (forall x :: ListOf(lists, x) == ListOf(lists0, x) + OccUpTo(rt, x, idx))
  }

  lemma AppendStep(lists0: map<Item, seq<Entry>>, lists: map<Item, seq<Entry>>, rt: RevTxn, idx: nat, entry: Entry)
    requires Aligned(rt) && idx < |rt.items|
    requires AppendedUpTo(lists0, lists, rt, idx)
    requires entry == Entry(rt.tid, rt.utils[idx], Sum(rt.utils[idx + 1..]))
    ensures AppendedUpTo(lists0, lists[rt.items[idx] := ListOf(lists, rt.items[idx]) + [entry]], rt, idx + 1)
  {
    var item := rt.items[idx];
    var next := lists[item := ListOf(lists, item) + [entry]];
    forall x ensures ListOf(next, x) == ListOf(lists0, x) + OccUpTo(rt, x, idx + 1) {
      if x == item {
        Assoc(ListOf(lists0, item), OccUpTo(rt, item, idx), [entry]);
      } else {
        assert ListOf(next, x) == ListOf(lists, x);
        assert OccUpTo(rt, x, idx + 1) == OccUpTo(rt, x, idx) + [];
      }
    }
  }

  method BuildUtilityLists(rev: seq<RevTxn>) returns (ul: map<Item, seq<Entry>>)
    requires AllAligned(rev)
    ensures ul == SortLists(UtilityListsOf(rev))
  {
    var lists: map<Item, seq<Entry>> := map[];
    for r := 0 to |rev|
      invariant forall x :: x in lists ==> lists[x] != []
      invariant forall x :: ListOf(lists, x) == Occurrences(rev[..r], x)
    {
      var rt := rev[r];
      assert Aligned(rt);
      var suffix := SuffixSums(rt.utils);
      ghost var lists0 := lists;
      lists := AppendEntries(lists, rt, suffix);
      BuildStep(rev, r, lists0, lists);
    }
    assert rev[..|rev|] == rev;
    ListsAre(lists, rev);
    ul := SortLists(lists);
  }


  /** Appending the occurrences of transaction r to the lists of the first
      r transactions gives the lists of the first r + 1. */
  lemma BuildStep(rev: seq<RevTxn>, r: nat, lists0: map<Item, seq<Entry>>, lists: map<Item, seq<Entry>>)
    requires AllAligned(rev) && r < |rev|
    requires forall x :: ListOf(lists0, x) == Occurrences(rev[..r], x)
    requires forall x :: ListOf(lists, x) == ListOf(lists0, x) + OccUpTo(rev[r], x, |rev[r].items|)
    ensures forall x :: ListOf(lists, x) == Occurrences(rev[..r + 1], x)
  {
    OccurrencesSnoc(rev, r);
  }

  /** Lists that are all nonempty and hold each item's occurrences are the
      utility lists of the database. */
  lemma ListsAre(lists: map<Item, seq<Entry>>, rev: seq<RevTxn>)
    requires AllAligned(rev)
    requires forall x :: x in lists ==> lists[x] != []
    requires forall x :: ListOf(lists, x) == Occurrences(rev, x)
    ensures lists == UtilityListsOf(rev)
  {
    forall x ensures x in lists <==> x in ItemsOfRev(rev) {
      OccurrencesEmpty(rev, x);
    }
    forall x | x in lists ensures lists[x] == UtilityListsOf(rev)[x] {
      assert ListOf(lists, x) == lists[x];
    }
  }

  // ---------------------------------------------------------------------
  // Step 5: the depth-first search

  /** The merge-join of two tid-sorted utility lists: one entry per common
      tid, adding the iutils and keeping the second list's rutil. */
  function Join(a: seq<Entry>, b: seq<Entry>): seq<Entry>
    decreases |a| + |b|
  {
    if |a| == 0 || |b| == 0 then []
    else if a[0].tid == b[0].tid then
      [Entry(a[0].tid, a[0].iutil + b[0].iutil, b[0].rutil)] + Join(a[1..], b[1..])
    else if a[0].tid < b[0].tid then Join(a[1..], b)
    else Join(a, b[1..])
  }

  method MergeJoin(a: seq<Entry>, b: seq<Entry>) returns (r: seq<Entry>)
    ensures r == Join(a, b)
  {
    r := [];
    var i, j := 0, 0;
    while i < |a| && j < |b|
      invariant 0 <= i <= |a| && 0 <= j <= |b|
      invariant r + Join(a[i..], b[j..]) == Join(a, b)
      decreases |a| - i + |b| - j
    {
      assert a[i..][1..] == a[i + 1..] && b[j..][1..] == b[j + 1..];
      if a[i].tid == b[j].tid {
        r := r + [Entry(a[i].tid, a[i].iutil + b[j].iutil, b[j].rutil)];
        i, j := i + 1, j + 1;
      } else if a[i].tid < b[j].tid {
        i := i + 1;
      } else {
        j := j + 1;
      }
    }
    assert Join(a[i..], b[j..]) == [];
  }

  /** What the search sees besides its arguments: the ordered promising
      items, their positions, the single-item utility lists and the threshold. */
  datatype Ctx = Ctx(P: seq<Item>, ord: map<Item, nat>, lists: map<Item, seq<Entry>>, minUtil: int)

  /** `utility_lists.get(item, [])`. */
  function ListOf(lists: map<Item, seq<Entry>>, x: Item): seq<Entry> {
    if x in lists then lists[x] else []
  }

  /** `search(prefix, ul_prefix, start_index)`: the itemsets it appends, in order. */
  function SearchSpec(c: Ctx, prefix: seq<Item>, ul: seq<Entry>, start: nat): seq<Found>
    requires start <= |c.P|
    decreases |c.P| - start, 2
  {
    var total := SumIu(ul);
    var here := if |prefix| > 0 && total >= c.minUtil then [(prefix, total)] else [];
    if SumIuRu(ul) < c.minUtil then here else here + Extend(c, prefix, ul, start)
  }

  /** The extension loop of `search` from position idx on. */
  function Extend(c: Ctx, prefix: seq<Item>, ul: seq<Entry>, idx: nat): seq<Found>
    requires idx <= |c.P|
    decreases |c.P| - idx, 1
  {
    if idx == |c.P| then []
    else Branch(c, prefix, ul, idx) + Extend(c, prefix, ul, idx + 1)
  }

  /** One pass of the extension loop: extend the prefix by the item at idx. */
  function Branch(c: Ctx, prefix: seq<Item>, ul: seq<Entry>, idx: nat): seq<Found>
    requires idx < |c.P|
    decreases |c.P| - idx, 0
  {
    var ulItem := ListOf(c.lists, c.P[idx]);
    if ulItem == [] then []
    else
      var nu := Join(ul, ulItem);
      if nu == [] then [] else SearchSpec(c, prefix + [c.P[idx]], nu, idx + 1)
  }

  method Search(c: Ctx, prefix: seq<Item>, ul: seq<Entry>, start: nat, acc: seq<Found>) returns (out: seq<Found>)
    requires start <= |c.P|
    ensures out == acc + SearchSpec(c, prefix, ul, start)
    decreases |c.P| - start
  {
    out := acc;
    var total := SumIu(ul);
    if |prefix| > 0 && total >= c.minUtil {
      out := out + [(prefix, total)];
    }
    if SumIuRu(ul) < c.minUtil {
      return;
    }
    var idx := start;
    while idx < |c.P|
      invariant start <= idx <= |c.P|
      invariant out + Extend(c, prefix, ul, idx) == acc + SearchSpec(c, prefix, ul, start)
    {
      var item := c.P[idx];
      var ulItem := ListOf(c.lists, item);
      if ulItem != [] {
        var nu := MergeJoin(ul, ulItem);
        if nu != [] {
          out := Search(c, prefix + [item], nu, idx + 1, out);
        }
      }
      idx := idx + 1;
    }
  }

  /** One pass of the top-level loop over the promising items. */
  function TopBranch(c: Ctx, idx: nat): seq<Found>
    requires idx < |c.P|
  {
    var ulItem := ListOf(c.lists, c.P[idx]);
    if ulItem == [] || SumIuRu(ulItem) < c.minUtil then []
    else SearchSpec(c, [c.P[idx]], ulItem, idx + 1)
  }

  /** What the top-level loop has collected after the first n promising items. */
  function TopSpec(c: Ctx, n: nat): seq<Found>
    requires n <= |c.P|
  {
    if n == 0 then [] else TopSpec(c, n - 1) + TopBranch(c, n - 1)
  }

  /** Step 5's loop: a search from every promising item whose list passes the bound. */
  method TopLoop(c: Ctx) returns (result: seq<Found>)
    ensures result == TopSpec(c, |c.P|)
  {
    result := [];
    for idx := 0 to |c.P|
      invariant result == TopSpec(c, idx)
    {
      var ulItem := ListOf(c.lists, c.P[idx]);
      if ulItem != [] && SumIuRu(ulItem) >= c.minUtil {
        result := Search(c, [c.P[idx]], ulItem, idx + 1, result);
      }
    }
  }

  /** The context the search runs in, built from the database. */
  function ContextOf(db: seq<Txn>, minUtil: int, P: seq<Item>): Ctx {
    var ord := OrderIndex(P);
    Ctx(P, ord, SortLists(UtilityListsOf(Revise(db, ord))), minUtil)
  }

  /** The ordered promising items. */
  function PromisingOrder(db: seq<Txn>, minUtil: int): seq<Item> {
    var twu := ItemTwu(db);
    var q := Promising(FirstSeen(db), twu, minUtil);
    if q == [] then [] else SortBy(q, TwuKeyOf(twu))
  }

  /** Everything the miner returns, in order. */
  function Mine(db: seq<Txn>, minUtil: int): seq<Found> {
    var P := PromisingOrder(db, minUtil);
    if P == [] then [] else var c := ContextOf(db, minUtil, P); TopSpec(c, |c.P|)
  }

  method HuiMinerOnePhase(db: seq<Txn>, minUtil: int) returns (result: seq<Found>)
    ensures result == Mine(db, minUtil)
  {
    var twu, seen := ComputeItemTwu(db);
    var P := PromisingItems(twu, seen, minUtil);
    if P == [] {
      return [];
    }
    var ord := OrderIndex(P);
    var rev := ReviseTransactions(db, ord);
    var lists := BuildUtilityLists(rev);
    var c := Ctx(P, ord, lists, minUtil);
    assert c == ContextOf(db, minUtil, P);
    result := TopLoop(c);
  }
}
