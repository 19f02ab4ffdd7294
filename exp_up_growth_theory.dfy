/** What the UP-Growth engine of experiments/up_growth.py computes, as
    functions: the decreased node utilities of DGN and DLN, the global
    filter DGU with its minimum item utilities, and the local filter DLU of
    a projection with its item path utilities. */
module ExpUpGrowthTheory {
  import opened Db
  import opened Ordering
  import opened PrefixTree
  import opened ExpHui
  import ExpIhupTheory

  /** `MIN_UTIL`, the module constant. */
  const MinUtilConst: int := 500000

  // ---------------------------------------------------------------------
  // Sums

  lemma {:induction false} SumAppend(a: seq<int>, b: seq<int>)
    ensures Sum(a + b) == Sum(a) + Sum(b)
    decreases |a|
  {
    if |a| > 0 {
      assert (a + b)[0] == a[0] && (a + b)[1..] == a[1..] + b;
      SumAppend(a[1..], b);
    } else {
      assert a + b == b;
    }
  }

  lemma SumSnoc(a: seq<int>, x: int)
    ensures Sum(a + [x]) == Sum(a) + x
  {
    SumAppend(a, [x]);
  }

  // ---------------------------------------------------------------------
  // DGN and DLN

  /** `sum(self.min_item_util.get(j, 0) for j in s)`. */
  function RemMin(miu: map<Item, int>, s: seq<Item>): int
    decreases |s|
  {
    if |s| == 0 then 0 else RemMin(miu, s[..|s| - 1]) + Get(miu, s[|s| - 1])
  }

  /** `sum(self.min_item_util.get(j, 0) * count for j in s)`. */
  function LocalRem(miu: map<Item, int>, s: seq<Item>, count: int): int
    decreases |s|
  {
    if |s| == 0 then 0 else LocalRem(miu, s[..|s| - 1], count) + Get(miu, s[|s| - 1]) * count
  }

  /** DGN: the utility `insert_transaction` adds at each depth of the
      path, the transaction utility less the minimum utilities of the
      items after that depth. */
  function DgnWeights(t: seq<Item>, tu: int, miu: map<Item, int>): (w: seq<int>)
    ensures |w| == |t|
  {
    seq(|t|, idx requires 0 <= idx < |t| => tu - RemMin(miu, t[idx + 1..]))
  }

  /** DLN: the utility `insert_local_transaction` adds at each depth, the
      path utility less count times the minimum utilities of the later
      items. */
  function LocalWeights(path: seq<Item>, pathUtil: int, count: int, miu: map<Item, int>): (w: seq<int>)
    ensures |w| == |path|
  {
    seq(|path|, idx requires 0 <= idx < |path| => pathUtil - LocalRem(miu, path[idx + 1..], count))
  }

  lemma {:induction false} RemMinAppend(miu: map<Item, int>, a: seq<Item>, b: seq<Item>)
    ensures RemMin(miu, a + b) == RemMin(miu, a) + RemMin(miu, b)
    decreases |b|
  {
    if |b| > 0 {
      assert (a + b)[..|a + b| - 1] == a + b[..|b| - 1];
      RemMinAppend(miu, a, b[..|b| - 1]);
    } else {
      assert a + b == a;
    }
  }

  /** The local decrease is the global one scaled by the path's count. */
  lemma {:induction false} LocalRemScaled(miu: map<Item, int>, s: seq<Item>, count: int)
    ensures LocalRem(miu, s, count) == count * RemMin(miu, s)
    decreases |s|
  {
    if |s| > 0 {
      LocalRemScaled(miu, s[..|s| - 1], count);
      assert count * RemMin(miu, s) == count * RemMin(miu, s[..|s| - 1]) + count * Get(miu, s[|s| - 1]);
    }
  }

  /** The deepest node of an inserted transaction gains the whole
      transaction utility, and with nonnegative minimum utilities the gains
      never decrease with depth. */
  lemma DgnShape(t: seq<Item>, tu: int, miu: map<Item, int>)
    ensures |t| > 0 ==> DgnWeights(t, tu, miu)[|t| - 1] == tu
    ensures (forall x :: x in miu ==> miu[x] >= 0) ==>
      forall i, j :: 0 <= i < j < |t| ==> DgnWeights(t, tu, miu)[i] <= DgnWeights(t, tu, miu)[j]
  {
    if |t| > 0 {
      assert t[|t|..] == [];
    }
    if forall x :: x in miu ==> miu[x] >= 0 {
      forall i, j | 0 <= i < j < |t| ensures DgnWeights(t, tu, miu)[i] <= DgnWeights(t, tu, miu)[j] {
        assert t[i + 1..] == t[i + 1..j + 1] + t[j + 1..];
        RemMinAppend(miu, t[i + 1..j + 1], t[j + 1..]);
        RemMinNonneg(miu, t[i + 1..j + 1]);
      }
    }
  }

  /** Unlike IHUP's, a UP-Tree node can carry less than its child: the line
      1 2 with utility 2 and minimum utility 1 for both items puts 1 on the
      node for 1 and 2 on its child for 2. */
  lemma DgnChildHeavier()
    ensures DgnWeights([1, 2], 2, map[1 := 1, 2 := 1]) == [1, 2]
  {
    var t, miu := [1, 2], map[1 := 1, 2 := 1];
    assert t[1..] == [2] && t[2..] == [] && [2][..0] == [];
    assert RemMin(miu, [2]) == RemMin(miu, []) + 1;
  }

  lemma {:induction false} RemMinNonneg(miu: map<Item, int>, s: seq<Item>)
    requires forall x :: x in miu ==> miu[x] >= 0
    ensures RemMin(miu, s) >= 0
    decreases |s|
  {
    if |s| > 0 {
      RemMinNonneg(miu, s[..|s| - 1]);
    }
  }

  /** When no item's minimum utility exceeds its utility in the line, the
      minimum utilities of a suffix sum to at most the suffix's utilities. */
  lemma {:induction false} RemMinAtMost(miu: map<Item, int>, t: seq<Item>, u: seq<int>)
    requires |t| == |u| && forall k :: 0 <= k < |t| ==> Get(miu, t[k]) <= u[k]
    ensures RemMin(miu, t) <= Sum(u)
    decreases |t|
  {
    if |t| > 0 {
      var n := |t| - 1;
      RemMinAtMost(miu, t[..n], u[..n]);
      assert u == u[..n] + [u[n]];
      SumSnoc(u[..n], u[n]);
    }
  }

  /** DGN never undercuts: with the line's own utilities as transaction
      utility and minimum utilities no larger than the line's, the node at
      each depth gains at least the utility of the items down to it. */
  lemma DgnCovers(t: seq<Item>, u: seq<int>, miu: map<Item, int>)
    requires |t| == |u| && forall k :: 0 <= k < |t| ==> Get(miu, t[k]) <= u[k]
    ensures forall idx :: 0 <= idx < |t| ==> DgnWeights(t, Sum(u), miu)[idx] >= Sum(u[..idx + 1])
  {
    forall idx | 0 <= idx < |t| ensures DgnWeights(t, Sum(u), miu)[idx] >= Sum(u[..idx + 1]) {
      assert u == u[..idx + 1] + u[idx + 1..];
      SumAppend(u[..idx + 1], u[idx + 1..]);
      RemMinAtMost(miu, t[idx + 1..], u[idx + 1..]);
    }
  }

  // ---------------------------------------------------------------------
  // DGU

  /** The kept `(item, utility)` pairs of a line: `twu[i] >= minutil`. */
  function DguPairs(t: Txn, twu: map<Item, int>, minUtil: int): seq<Pair> {
    KeepPairs(ZipPairs(t.items, t.utils), ExpHui.Kept(twu, minUtil))
  }

  /** `prev = min_item_util.get(i); if prev is None or u < prev: ...` over
      the pairs in order. */
  function MinUpdate(miu: map<Item, int>, ps: seq<Pair>): map<Item, int>
    decreases |ps|
  {
    if |ps| == 0 then miu
    else
      var m := MinUpdate(miu, ps[..|ps| - 1]);
      var p := ps[|ps| - 1];
      if p.0 !in m || p.1 < m[p.0] then m[p.0 := p.1] else m
  }

  /** MinUpdate keeps, per item, the least utility seen: no larger than any
      pair's or the old entry, and equal to one of them. */
  lemma {:induction false} MinUpdateSpec(miu: map<Item, int>, ps: seq<Pair>)
    ensures forall i :: i in MinUpdate(miu, ps) <==> i in miu || i in Firsts(ps)
    ensures forall k :: 0 <= k < |ps| ==> ps[k].0 in MinUpdate(miu, ps) && MinUpdate(miu, ps)[ps[k].0] <= ps[k].1
    ensures forall i :: i in miu ==> MinUpdate(miu, ps)[i] <= miu[i]
    ensures forall i :: i in MinUpdate(miu, ps) ==>
      (i in miu && MinUpdate(miu, ps)[i] == miu[i]) || (i, MinUpdate(miu, ps)[i]) in ps
    decreases |ps|
  {
    if |ps| > 0 {
      var n := |ps| - 1;
      var init := ps[..n];
      MinUpdateSpec(miu, init);
      var m := MinUpdate(miu, init);
      var r := MinUpdate(miu, ps);
      assert forall i :: i in Firsts(ps) <==> i in Firsts(init) || i == ps[n].0 by {
        forall i ensures i in Firsts(ps) <==> i in Firsts(init) || i == ps[n].0 {
          if i in Firsts(ps) {
            var k :| 0 <= k < |ps| && Firsts(ps)[k] == i;
            if k < n {
              assert Firsts(init)[k] == i;
            }
          }
          if i in Firsts(init) {
            var k :| 0 <= k < n && Firsts(init)[k] == i;
            assert Firsts(ps)[k] == i;
          }
          if i == ps[n].0 {
            assert Firsts(ps)[n] == i;
          }
        }
      }
      forall k | 0 <= k < |ps| ensures ps[k].0 in r && r[ps[k].0] <= ps[k].1 {
        if k < n {
          assert init[k] == ps[k];
        }
      }
      forall i | i in r ensures (i in miu && r[i] == miu[i]) || (i, r[i]) in ps {
        if i in m && r[i] == m[i] {
          if (i, m[i]) in init {
            var k :| 0 <= k < n && init[k] == (i, m[i]);
            assert ps[k] == (i, m[i]);
          }
        } else {
          assert (i, r[i]) == ps[n];
        }
      }
    }
  }

  /** `min_item_util` after the DGU pass over the lines so far. */
  function MiuAfter(db: seq<Txn>, twu: map<Item, int>, minUtil: int): map<Item, int>
    decreases |db|
  {
    if |db| == 0 then map[]
    else MinUpdate(MiuAfter(db[..|db| - 1], twu, minUtil), DguPairs(db[|db| - 1], twu, minUtil))
  }

  /** Every kept occurrence `(i, u)` of the lines, line by line. */
  function KeptPairs(db: seq<Txn>, twu: map<Item, int>, minUtil: int): seq<Pair>
    decreases |db|
  {
    if |db| == 0 then [] else KeptPairs(db[..|db| - 1], twu, minUtil) + DguPairs(db[|db| - 1], twu, minUtil)
  }

  lemma {:induction false} MinUpdateAppend(m: map<Item, int>, a: seq<Pair>, b: seq<Pair>)
    ensures MinUpdate(m, a + b) == MinUpdate(MinUpdate(m, a), b)
    decreases |b|
  {
    if |b| > 0 {
      var n := |b| - 1;
      assert (a + b)[..|a + b| - 1] == a + b[..n];
      assert (a + b)[|a + b| - 1] == b[n];
      MinUpdateAppend(m, a, b[..n]);
    } else {
      assert a + b == a;
    }
  }

  lemma {:induction false} MiuFlat(db: seq<Txn>, twu: map<Item, int>, minUtil: int)
    ensures MiuAfter(db, twu, minUtil) == MinUpdate(map[], KeptPairs(db, twu, minUtil))
    decreases |db|
  {
    if |db| > 0 {
      var n := |db| - 1;
      MiuFlat(db[..n], twu, minUtil);
      MinUpdateAppend(map[], KeptPairs(db[..n], twu, minUtil), DguPairs(db[n], twu, minUtil));
    }
  }

  /** After the DGU pass, `min_item_util[i]` is the least utility of i over
      its kept occurrences: an entry exactly for the kept items, no larger
      than any kept occurrence, and attained by one. */
  lemma MiuIsMinimum(db: seq<Txn>, twu: map<Item, int>, minUtil: int)
    ensures forall p :: p in KeptPairs(db, twu, minUtil) ==>
      p.0 in MiuAfter(db, twu, minUtil) && MiuAfter(db, twu, minUtil)[p.0] <= p.1
    ensures forall i :: i in MiuAfter(db, twu, minUtil) ==> (i, MiuAfter(db, twu, minUtil)[i]) in KeptPairs(db, twu, minUtil)
  {
    var ps := KeptPairs(db, twu, minUtil);
    MiuFlat(db, twu, minUtil);
    MinUpdateSpec(map[], ps);
    forall p | p in ps ensures p.0 in MiuAfter(db, twu, minUtil) && MiuAfter(db, twu, minUtil)[p.0] <= p.1 {
      var j :| 0 <= j < |ps| && ps[j] == p;
    }
  }

  /** The order of the tree and of `header_list`: descending value in the
      table, ties by ascending item, `key=lambda x: (-table[x], int(x))`. */
  function Rank(table: map<Item, int>): Item -> (int, int) {
    (x: Item) => (-Get(table, x), x)
  }

  function PairRank(table: map<Item, int>): Pair -> (int, int) {
    (p: Pair) => (-Get(table, p.0), p.0)
  }

  /** `filtered_items.sort(key=lambda x: (-twu[x[0]], int(x[0])))`. */
  function DguSorted(t: Txn, twu: map<Item, int>, minUtil: int): seq<Pair> {
    SortBy(DguPairs(t, twu, minUtil), PairRank(twu))
  }

  /** What the DGU pass inserts: for each line with a kept item, its kept
      items in rank order, weighted by DGN with the kept utilities' sum and
      the minimum utilities as updated by the line itself. */
  function UpLines(db: seq<Txn>, twu: map<Item, int>, minUtil: int): seq<Inserted>
    decreases |db|
  {
    if |db| == 0 then []
    else
      var t := db[|db| - 1];
      var f := DguPairs(t, twu, minUtil);
      var s := Firsts(DguSorted(t, twu, minUtil));
      UpLines(db[..|db| - 1], twu, minUtil)
        + (if |f| > 0 then [Inserted(s, DgnWeights(s, Sum(Seconds(f)), MiuAfter(db, twu, minUtil)))] else [])
  }

  // ---------------------------------------------------------------------
  // The projection: item path utilities and DLU

  /** `(path, current.twu, current.tf)`, one per chain node. */
  datatype PathEntry = PathEntry(path: seq<Item>, util: int, count: int)

  /** `prefix_paths`: the chain's nodes with a nonempty prefix path. */
  function ChainEntries(nodes: seq<Node>, chain: seq<nat>): seq<PathEntry>
    requires Parented(nodes) && InRange(chain, |nodes|)
    decreases |chain|
  {
    if |chain| == 0 then []
    else
      var c := chain[|chain| - 1];
      var pre := PrefixPath(nodes, c);
      ChainEntries(nodes, chain[..|chain| - 1]) + (if |pre| > 0 then [PathEntry(pre, nodes[c].twu, nodes[c].tf)] else [])
  }

  /** `for p in path: item_path_util[p] += util`. */
  function AddUtil(m: map<Item, int>, path: seq<Item>, v: int): map<Item, int>
    decreases |path|
  {
    if |path| == 0 then m
    else
      var r := AddUtil(m, path[..|path| - 1], v);
      r[path[|path| - 1] := Get(r, path[|path| - 1]) + v]
  }

  /** `item_path_util` after the chain walk. */
  function ItemPathUtil(es: seq<PathEntry>): map<Item, int>
    decreases |es|
  {
    if |es| == 0 then map[]
    else AddUtil(ItemPathUtil(es[..|es| - 1]), es[|es| - 1].path, es[|es| - 1].util)
  }

  /** Over the entries whose path holds p, the sum of their utilities. */
  function PathOcc(es: seq<PathEntry>, p: Item): int
    decreases |es|
  {
    if |es| == 0 then 0
    else PathOcc(es[..|es| - 1], p) + (if p in es[|es| - 1].path then es[|es| - 1].util else 0)
  }

  lemma {:induction false} AddUtilAt(m: map<Item, int>, path: seq<Item>, v: int)
    requires Distinct(path)
    ensures forall p :: p in AddUtil(m, path, v) <==> p in m || p in path
    ensures forall p :: Get(AddUtil(m, path, v), p) == Get(m, p) + (if p in path then v else 0)
    decreases |path|
  {
    if |path| > 0 {
      var n := |path| - 1;
      DistinctInit(path);
      AddUtilAt(m, path[..n], v);
      assert forall p :: p in path <==> p in path[..n] || p == path[n];
      assert path[n] !in path[..n];
    }
  }

  /** `item_path_util[p]` is the sum, over the entries whose path holds p,
      of their utilities, when no path repeats an item; an item has an entry
      exactly when some path holds it. */
  lemma {:induction false} ItemPathUtilSum(es: seq<PathEntry>)
    requires forall k :: 0 <= k < |es| ==> Distinct(es[k].path)
    ensures forall p :: Get(ItemPathUtil(es), p) == PathOcc(es, p)
    ensures forall p :: p in ItemPathUtil(es) <==> exists k :: 0 <= k < |es| && p in es[k].path
    decreases |es|
  {
    if |es| > 0 {
      var n := |es| - 1;
      assert forall k :: 0 <= k < n ==> es[..n][k] == es[k];
      ItemPathUtilSum(es[..n]);
      AddUtilAt(ItemPathUtil(es[..n]), es[n].path, es[n].util);
      forall p ensures p in ItemPathUtil(es) <==> exists k :: 0 <= k < |es| && p in es[k].path {
        if p in ItemPathUtil(es[..n]) {
          var k :| 0 <= k < n && p in es[..n][k].path;
          assert p in es[k].path;
        }
        if exists k :: 0 <= k < |es| && p in es[k].path {
          var k :| 0 <= k < |es| && p in es[k].path;
          if k < n {
            assert p in es[..n][k].path;
          }
        }
      }
    }
  }

  /** DLU: `filtered`, the items of the path whose path utility reaches the
      threshold, in path order. */
  function LocalKept(path: seq<Item>, ipu: map<Item, int>, threshold: int): (r: seq<Item>)
    ensures |r| <= |path|
    ensures forall p :: p in r <==> p in path && Get(ipu, p) >= threshold
    decreases |path|
  {
    if |path| == 0 then []
    else
      var n := |path| - 1;
      assert forall p :: p in path <==> p in path[..n] || p == path[n];
      LocalKept(path[..n], ipu, threshold) + (if Get(ipu, path[n]) >= threshold then [path[n]] else [])
  }

  /** DLU: what `adj_path_util` loses, the minimum utility times the count
      of every dropped item. */
  function Dropped(path: seq<Item>, ipu: map<Item, int>, miu: map<Item, int>, count: int, threshold: int): int
    decreases |path|
  {
    if |path| == 0 then 0
    else
      var n := |path| - 1;
      Dropped(path[..n], ipu, miu, count, threshold) + (if Get(ipu, path[n]) >= threshold then 0 else Get(miu, path[n]) * count)
  }

  /** A filtered path is the sorted kept items; `threshold` is the
      projection's filter threshold. */
  function LocalPath(e: PathEntry, ipu: map<Item, int>, threshold: int): seq<Item> {
    SortBy(LocalKept(e.path, ipu, threshold), Rank(ipu))
  }

  /** What the projection inserts for one entry: when an item is kept,
      the sorted kept items with the DLN weights of the adjusted utility. */
  function LocalInsert(e: PathEntry, ipu: map<Item, int>, miu: map<Item, int>, threshold: int): seq<Inserted> {
    if |LocalKept(e.path, ipu, threshold)| > 0 then [LocalEntry(e, ipu, miu, threshold)] else []
  }

  /** The sorted kept items with the DLN weights of the adjusted utility. */
  function LocalEntry(e: PathEntry, ipu: map<Item, int>, miu: map<Item, int>, threshold: int): Inserted {
    var lp := LocalPath(e, ipu, threshold);
    Inserted(lp, LocalWeights(lp, Adjusted(e, ipu, miu, threshold), e.count, miu))
  }

  /** `adj_path_util`: the entry's utility less what DLU drops. */
  function Adjusted(e: PathEntry, ipu: map<Item, int>, miu: map<Item, int>, threshold: int): int {
    e.util - Dropped(e.path, ipu, miu, e.count, threshold)
  }

  /** What an entry inserts is at most one path, no longer than its own. */
  lemma LocalInsertShort(e: PathEntry, ipu: map<Item, int>, miu: map<Item, int>, threshold: int)
    ensures var r := LocalInsert(e, ipu, miu, threshold);
      |r| <= 1 && forall k :: 0 <= k < |r| ==> |r[k].path| <= |e.path|
  {
    LocalPathLength(e, ipu, threshold);
  }

  function LocalPaths(es: seq<PathEntry>, ipu: map<Item, int>, miu: map<Item, int>, threshold: int): seq<Inserted>
    decreases |es|
  {
    if |es| == 0 then []
    else LocalPaths(es[..|es| - 1], ipu, miu, threshold) + LocalInsert(es[|es| - 1], ipu, miu, threshold)
  }

  /** Every dropped item is charged: the adjusted utility of a path is its
      utility less count times the minimum utilities of the items the
      filter drops. */
  lemma DroppedScaled(path: seq<Item>, ipu: map<Item, int>, miu: map<Item, int>, count: int, threshold: int)
    ensures Dropped(path, ipu, miu, count, threshold) == count * RemMin(miu, LocalDropped(path, ipu, threshold))
  {
    DroppedRem(path, ipu, miu, count, threshold);
    LocalRemScaled(miu, LocalDropped(path, ipu, threshold), count);
  }

  lemma {:induction false} DroppedRem(path: seq<Item>, ipu: map<Item, int>, miu: map<Item, int>, count: int, threshold: int)
    ensures Dropped(path, ipu, miu, count, threshold) == LocalRem(miu, LocalDropped(path, ipu, threshold), count)
    decreases |path|
  {
    if |path| > 0 {
      var n := |path| - 1;
      DroppedRem(path[..n], ipu, miu, count, threshold);
      var d0 := LocalDropped(path[..n], ipu, threshold);
      var x := path[n];
      if Get(ipu, x) < threshold {
        var d := d0 + [x];
        assert LocalDropped(path, ipu, threshold) == d;
        assert d[..|d| - 1] == d0 && d[|d| - 1] == x;
        assert LocalRem(miu, d, count) == LocalRem(miu, d0, count) + Get(miu, x) * count;
        assert Dropped(path, ipu, miu, count, threshold) == Dropped(path[..n], ipu, miu, count, threshold) + Get(miu, x) * count;
      } else {
        assert LocalDropped(path, ipu, threshold) == d0;
        assert Dropped(path, ipu, miu, count, threshold) == Dropped(path[..n], ipu, miu, count, threshold);
      }
    }
  }

  /** The items of the path the filter drops, in path order. */
  function LocalDropped(path: seq<Item>, ipu: map<Item, int>, threshold: int): (r: seq<Item>)
    ensures forall p :: p in r <==> p in path && Get(ipu, p) < threshold
    decreases |path|
  {
    if |path| == 0 then []
    else
      var n := |path| - 1;
      assert forall p :: p in path <==> p in path[..n] || p == path[n];
      LocalDropped(path[..n], ipu, threshold) + (if Get(ipu, path[n]) >= threshold then [] else [path[n]])
  }
  /** `filtered.append(...)` one pair at a time builds KeepPairs. */
  lemma {:induction false} KeepPairsSnoc(ps: seq<Pair>, p: Pair, kept: set<Item>)
    ensures KeepPairs(ps + [p], kept) == KeepPairs(ps, kept) + (if p.0 in kept then [p] else [])
    decreases |ps|
  {
    if |ps| == 0 {
      assert [p][1..] == [];
    } else {
      assert (ps + [p])[0] == ps[0] && (ps + [p])[1..] == ps[1..] + [p];
      KeepPairsSnoc(ps[1..], p, kept);
    }
  }

  lemma ChainEntriesStep(nodes: seq<Node>, chain: seq<nat>, j: nat)
    requires Parented(nodes) && InRange(chain, |nodes|) && j < |chain|
    ensures InRange(chain[..j], |nodes|) && InRange(chain[..j + 1], |nodes|)
    ensures var c := chain[j]; var pre := PrefixPath(nodes, c);
      ChainEntries(nodes, chain[..j + 1])
      == ChainEntries(nodes, chain[..j]) + (if |pre| > 0 then [PathEntry(pre, nodes[c].twu, nodes[c].tf)] else [])
  {
    assert forall i :: 0 <= i < j ==> chain[..j][i] == chain[i];
    assert forall i :: 0 <= i <= j ==> chain[..j + 1][i] == chain[i];
    assert chain[..j + 1][..j] == chain[..j];
  }

  /** `path_util`, the sum of `twu` along the item's chain. */
  ghost function ChainValue(nodes: seq<Node>, header: map<Item, seq<nat>>, x: Item): int
    requires Shape(nodes, header)
  {
    HeaderChain(nodes, x);
    ProjSum(nodes, ChainOf(header, x), [])
  }

  /** The chain sum of an item is the sum, over every inserted path, of the
      weights at the item's positions. */
  lemma ChainValueIsWeights(nodes: seq<Node>, header: map<Item, seq<nat>>, ins: seq<Inserted>, x: Item)
    requires Holds(nodes, header, ins)
    ensures ChainValue(nodes, header, x) == PathTw(ins, x, [])
  {
    assert Sums(nodes, header, ins);
    HeaderChain(nodes, x);
  }

  /** Each entry of the chain walk is the prefix path of a non-root node,
      so it is shorter than the tree's longest path. */
  lemma {:induction false} ChainEntriesShort(nodes: seq<Node>, header: map<Item, seq<nat>>, ins: seq<Inserted>, chain: seq<nat>)
    requires Holds(nodes, header, ins) && InRange(chain, |nodes|)
    requires forall i :: 0 <= i < |chain| ==> 0 < chain[i]
    ensures forall k :: 0 <= k < |ChainEntries(nodes, chain)| ==> |ChainEntries(nodes, chain)[k].path| < ExpIhupTheory.Height(ins)
    decreases |chain|
  {
    if |chain| > 0 {
      var n := |chain| - 1;
      var c := chain[n];
      assert forall i :: 0 <= i < n ==> chain[..n][i] == chain[i];
      ChainEntriesShort(nodes, header, ins, chain[..n]);
      ExpIhupTheory.NodeHeight(nodes, header, ins, c);
      ExpIhupTheory.PathSplit(nodes, c);
    }
  }

  /** The local filter keeps no more items than an entry's path has. */
  lemma {:induction false} LocalPathsShort(es: seq<PathEntry>, ipu: map<Item, int>, miu: map<Item, int>, threshold: int, h: int)
    requires forall k :: 0 <= k < |es| ==> |es[k].path| < h
    ensures forall k :: 0 <= k < |LocalPaths(es, ipu, miu, threshold)| ==> |LocalPaths(es, ipu, miu, threshold)[k].path| < h
    decreases |es|
  {
    if |es| > 0 {
      var n := |es| - 1;
      var init := es[..n];
      var e := es[n];
      assert forall k :: 0 <= k < n ==> init[k] == es[k];
      LocalPathsShort(init, ipu, miu, threshold, h);
      LocalInsertShort(e, ipu, miu, threshold);
      AppendShort(LocalPaths(init, ipu, miu, threshold), LocalInsert(e, ipu, miu, threshold), h);
    }
  }

  lemma AppendShort(a: seq<Inserted>, b: seq<Inserted>, h: int)
    requires forall k :: 0 <= k < |a| ==> |a[k].path| < h
    requires forall k :: 0 <= k < |b| ==> |b[k].path| < h
    ensures forall k :: 0 <= k < |a + b| ==> |(a + b)[k].path| < h
  {
  }

  lemma LocalPathLength(e: PathEntry, ipu: map<Item, int>, threshold: int)
    ensures |LocalPath(e, ipu, threshold)| == |LocalKept(e.path, ipu, threshold)| <= |e.path|
  {
    var lp := LocalPath(e, ipu, threshold);
    assert |lp| == |multiset(lp)| == |multiset(LocalKept(e.path, ipu, threshold))|;
  }

  /** Paths all shorter than h give a height below h, when h is positive. */
  lemma HeightBelow(ins: seq<Inserted>, h: int)
    requires h > 0 && forall k :: 0 <= k < |ins| ==> |ins[k].path| < h
    ensures ExpIhupTheory.Height(ins) < h
  {
  }
}
