/** The UP-Growth engine of experiments/up_growth.py: the IHUP tree with
    decreased node utilities. DGU drops the items whose TWU misses the
    threshold and records every kept item's minimum utility; DGN takes from
    each node the minimum utilities of the items below it; each projection
    drops the items whose path utility misses the threshold (DLU) and takes
    count times the minimum utilities of later items from each node (DLN).
    Candidates are recorded with their chain sums and checked against the
    exact utilities at the end. */
module ExpUpGrowth {
  import opened Db
  import opened Ordering
  import opened PrefixTree
  import opened ExpHui
  import opened ExpUpGrowthTheory
  import opened ExactUtils
  import I = ExpIhupTheory
  import ExpTwoPhase

  class UpTree {
    var nodes: seq<Node>
    var header: map<Item, seq<nat>>
    /** `header_list`: the items in processing order. */
    var headerList: seq<Item>
    /** `min_item_util`, read by DGN and DLN. */
    var minItemUtil: map<Item, int>
    /** The (path, weights) pairs inserted so far. */
    ghost var paths: seq<Inserted>

    ghost predicate Valid()
      reads this
    {
      Holds(nodes, header, paths)
    }

    /** `UPTree()`: the root alone, empty header, list and minimums. */
    constructor ()
      ensures Valid() && nodes == [Root()] && header == map[] && paths == []
      ensures headerList == [] && minItemUtil == map[]
    {
      nodes := [Root()];
      header := map[];
      headerList := [];
      minItemUtil := map[];
      paths := [];
    }

    /** `node.increment_vals(node_util)`: d more utility and one more count. */
    method IncrementVals(n: nat, d: int)
      requires n < |nodes|
      modifies this
      ensures nodes == Bumped(old(nodes), n, d)
      ensures header == old(header) && paths == old(paths)
      ensures headerList == old(headerList) && minItemUtil == old(minItemUtil)
    {
      nodes := nodes[n := nodes[n].(twu := nodes[n].twu + d, tf := nodes[n].tf + 1)];
    }

    /** `update_header(node)`: the node goes at the end of its item's
        chain, which is started when the item is new. */
    method UpdateHeader(n: nat)
      requires n < |nodes|
      modifies this
      ensures nodes == old(nodes) && paths == old(paths)
      ensures headerList == old(headerList) && minItemUtil == old(minItemUtil)
      ensures header == Appended(old(header), nodes[n].item, n)
    {
      var x := nodes[n].item;
      if x in header {
        header := header[x := header[x] + [n]];
      } else {
        assert ChainOf(header, x) + [n] == [n];
        header := header[x := [n]];
      }
    }

    /** One step of both insertions: the child of `current` for the item
        gains w, or is created with it. */
    method Step(ghost t: seq<Item>, ghost w: seq<int>, k: nat, current: nat, item: Item, d: int) returns (child: nat)
      requires |t| == |w| && k < |t| && item == t[k] && d == w[k]
      requires Walked(nodes, header, paths, t, w, k, current)
      modifies this
      ensures Walked(nodes, header, paths, t, w, k + 1, child)
      ensures paths == old(paths) && headerList == old(headerList) && minItemUtil == old(minItemUtil)
    {
      if item in nodes[current].children {
        child := nodes[current].children[item];
        ChildExists(nodes, header, current, item);
        WalkIncrement(nodes, header, paths, t, w, k, current, child);
        IncrementVals(child, d);
      } else {
        child := |nodes|;
        WalkCreate(nodes, header, paths, t, w, k, current);
        nodes := nodes[current := nodes[current].(children := nodes[current].children[item := child])]
          + [Node(item, d, 1, current, map[])];
        UpdateHeader(child);
      }
    }

    /** One pass of the DGN loop: `rem_min`, then `node_util`. */
    method DgnStep(ghost t: seq<Item>, ghost w: seq<int>, transaction: seq<Pair>, transactionUtility: int, idx: nat, current: nat)
      returns (child: nat)
      requires t == Firsts(transaction) && w == DgnWeights(t, transactionUtility, minItemUtil) && idx < |t|
      requires Walked(nodes, header, paths, t, w, idx, current)
      modifies this
      ensures Walked(nodes, header, paths, t, w, idx + 1, child)
      ensures paths == old(paths) && headerList == old(headerList) && minItemUtil == old(minItemUtil)
    {
      var remMin := SuffixMin(minItemUtil, transaction, idx + 1);
      var nodeUtil := transactionUtility - remMin;
      child := Step(t, w, idx, current, transaction[idx].0, nodeUtil);
    }

    /** One pass of the DLN loop. */
    method DlnStep(ghost w: seq<int>, path: seq<Item>, pathUtil: int, count: int, idx: nat, current: nat)
      returns (child: nat)
      requires w == LocalWeights(path, pathUtil, count, minItemUtil) && idx < |path|
      requires Walked(nodes, header, paths, path, w, idx, current)
      modifies this
      ensures Walked(nodes, header, paths, path, w, idx + 1, child)
      ensures paths == old(paths) && headerList == old(headerList) && minItemUtil == old(minItemUtil)
    {
      var remMin := SuffixLocal(minItemUtil, path, idx + 1, count);
      var nodeUtil := pathUtil - remMin;
      child := Step(path, w, idx, current, path[idx], nodeUtil);
    }

    /** `proj.min_item_util = full_tree.min_item_util` followed by
        `proj.insert_local_transaction(filtered, adj_path_util, count)`. */
    method AddLocal(miu: map<Item, int>, path: seq<Item>, pathUtil: int, count: int)
      requires Valid()
      modifies this
      ensures Valid() && minItemUtil == miu && headerList == old(headerList)
      ensures paths == old(paths) + [Inserted(path, LocalWeights(path, pathUtil, count, miu))]
    {
      minItemUtil := miu;
      InsertLocalTransaction(path, pathUtil, count);
    }

    /** `if prev is None or u < prev: self.min_item_util[i] = u`. */
    method LowerMin(i: Item, u: int)
      modifies this
      ensures minItemUtil == if i !in old(minItemUtil) || u < old(minItemUtil)[i] then old(minItemUtil)[i := u] else old(minItemUtil)
      ensures nodes == old(nodes) && header == old(header) && paths == old(paths) && headerList == old(headerList)
    {
      if i !in minItemUtil || u < minItemUtil[i] {
        minItemUtil := minItemUtil[i := u];
      }
    }

    /** `insert_transaction(transaction, transaction_utility)` with DGN: the
        node for the pair at idx gains the transaction utility less the
        minimum utilities of the items after idx. */
    method InsertTransaction(transaction: seq<Pair>, transactionUtility: int)
      requires Valid()
      modifies this
      ensures Valid()
      ensures paths == old(paths)
        + [Inserted(Firsts(transaction), DgnWeights(Firsts(transaction), transactionUtility, minItemUtil))]
      ensures headerList == old(headerList) && minItemUtil == old(minItemUtil)
    {
      ghost var t := Firsts(transaction);
      ghost var w := DgnWeights(t, transactionUtility, minItemUtil);
      WalkStart(nodes, header, paths, t, w);
      var current: nat := 0;
      for idx := 0 to |transaction|
        invariant Walked(nodes, header, paths, t, w, idx, current)
        invariant paths == old(paths) && headerList == old(headerList) && minItemUtil == old(minItemUtil)
      {
        current := DgnStep(t, w, transaction, transactionUtility, idx, current);
      }
      WalkEnd(nodes, header, paths, t, w, current);
      assert t[..|t|] == t;
      paths := paths + [Inserted(t, w)];
    }

    /** `insert_local_transaction(path, path_util, count)` with DLN: the
        node for the item at idx gains the path utility less count times
        the minimum utilities of the later items. */
    method InsertLocalTransaction(path: seq<Item>, pathUtil: int, count: int)
      requires Valid()
      modifies this
      ensures Valid()
      ensures paths == old(paths) + [Inserted(path, LocalWeights(path, pathUtil, count, minItemUtil))]
      ensures headerList == old(headerList) && minItemUtil == old(minItemUtil)
    {
      ghost var w := LocalWeights(path, pathUtil, count, minItemUtil);
      WalkStart(nodes, header, paths, path, w);
      var current: nat := 0;
      for idx := 0 to |path|
        invariant Walked(nodes, header, paths, path, w, idx, current)
        invariant paths == old(paths) && headerList == old(headerList) && minItemUtil == old(minItemUtil)
      {
        current := DlnStep(w, path, pathUtil, count, idx, current);
      }
      WalkEnd(nodes, header, paths, path, w, current);
      assert path[..|path|] == path;
      paths := paths + [Inserted(path, w)];
    }
  }

  /** `for j, _ in transaction[idx+1:]: rem_min += min_item_util.get(j, 0)`. */
  method SuffixMin(miu: map<Item, int>, transaction: seq<Pair>, from: nat) returns (remMin: int)
    requires from <= |transaction| + 1
    ensures from <= |transaction| ==> remMin == RemMin(miu, Firsts(transaction)[from..])
    ensures from > |transaction| ==> remMin == 0
  {
    remMin := 0;
    if from <= |transaction| {
      ghost var t := Firsts(transaction);
      assert t[from..from] == [];
      for j := from to |transaction|
        invariant remMin == RemMin(miu, t[from..j])
      {
        assert t[from..j + 1][..j - from] == t[from..j];
        assert t[from..j + 1][j - from] == transaction[j].0;
        remMin := remMin + Get(miu, transaction[j].0);
      }
      assert t[from..|transaction|] == t[from..];
    }
  }

  /** `for j in path[idx+1:]: rem_min += min_item_util.get(j, 0) * count`. */
  method SuffixLocal(miu: map<Item, int>, path: seq<Item>, from: nat, count: int) returns (remMin: int)
    requires from <= |path| + 1
    ensures from <= |path| ==> remMin == LocalRem(miu, path[from..], count)
    ensures from > |path| ==> remMin == 0
  {
    remMin := 0;
    if from <= |path| {
      assert path[from..from] == [];
      for j := from to |path|
        invariant remMin == LocalRem(miu, path[from..j], count)
      {
        assert path[from..j + 1][..j - from] == path[from..j];
        assert path[from..j + 1][j - from] == path[j];
        remMin := remMin + Get(miu, path[j]) * count;
      }
      assert path[from..|path|] == path[from..];
    }
  }

  /** `get_prefix_path(node)`: the walk up the parents, prepending each
      item, until the root. */
  method PrefixOf(nodes: seq<Node>, n: nat) returns (path: seq<Item>)
    requires Parented(nodes) && n < |nodes|
    ensures path == PrefixPath(nodes, n)
  {
    path := [];
    var current: nat := nodes[n].parent;
    while current != 0
      invariant current < |nodes|
      invariant PathTo(nodes, current) + path == PrefixPath(nodes, n)
      decreases current
    {
      assert PathTo(nodes, current) == PathTo(nodes, nodes[current].parent) + [nodes[current].item];
      path := [nodes[current].item] + path;
      current := nodes[current].parent;
    }
  }

  /** `for p in path: item_path_util[p] += util`, starting absent items
      at 0. */
  method AddPathUtil(ipu: map<Item, int>, path: seq<Item>, v: int) returns (r: map<Item, int>)
    ensures r == AddUtil(ipu, path, v)
  {
    r := ipu;
    assert path[..0] == [];
    for j := 0 to |path|
      invariant r == AddUtil(ipu, path[..j], v)
    {
      assert path[..j + 1][..j] == path[..j];
      var p := path[j];
      if p !in r {
        r := r[p := 0];
      }
      r := r[p := r[p] + v];
    }
    assert path[..|path|] == path;
  }

  /** The chain walk of get_projected_tree: the nonempty prefix path of
      every node of the chain with the node's utility and count, and every
      item's path utility. */
  method CollectPaths(nodes: seq<Node>, chain: seq<nat>) returns (entries: seq<PathEntry>, ipu: map<Item, int>)
    requires Parented(nodes) && InRange(chain, |nodes|)
    ensures entries == ChainEntries(nodes, chain) && ipu == ItemPathUtil(entries)
  {
    entries := [];
    ipu := map[];
    assert chain[..0] == [];
    for j := 0 to |chain|
      invariant InRange(chain[..j], |nodes|)
      invariant entries == ChainEntries(nodes, chain[..j]) && ipu == ItemPathUtil(entries)
    {
      ChainEntriesStep(nodes, chain, j);
      var c := chain[j];
      var path := PrefixOf(nodes, c);
      if |path| > 0 {
        var e := PathEntry(path, nodes[c].twu, nodes[c].tf);
        assert (entries + [e])[..|entries|] == entries;
        entries := entries + [e];
        ipu := AddPathUtil(ipu, path, nodes[c].twu);
      }
    }
    assert chain[..|chain|] == chain;
  }

  /** DLU on one path: the items whose path utility reaches `MIN_UTIL` are
      kept in order, and each dropped item takes count times its minimum
      utility off the path utility. */
  method FilterPath(path: seq<Item>, ipu: map<Item, int>, miu: map<Item, int>, pathUtil: int, count: int)
    returns (filtered: seq<Item>, adjPathUtil: int)
    ensures filtered == LocalKept(path, ipu, MinUtilConst)
    ensures adjPathUtil == pathUtil - Dropped(path, ipu, miu, count, MinUtilConst)
  {
    filtered := [];
    adjPathUtil := pathUtil;
    assert path[..0] == [];
    for j := 0 to |path|
      invariant filtered == LocalKept(path[..j], ipu, MinUtilConst)
      invariant adjPathUtil == pathUtil - Dropped(path[..j], ipu, miu, count, MinUtilConst)
    {
      assert path[..j + 1][..j] == path[..j];
      var p := path[j];
      if Get(ipu, p) >= MinUtilConst {
        filtered := filtered + [p];
      } else {
        adjPathUtil := adjPathUtil - Get(miu, p) * count;
      }
    }
    assert path[..|path|] == path;
  }

  /** One entry of the build loop of get_projected_tree: the filtered
      path, sorted by descending path utility, inserted with the adjusted
      utility and the full tree's minimum utilities when it is not empty. */
  method AddLocalPath(proj: UpTree, miu: map<Item, int>, e: PathEntry, ipu: map<Item, int>)
    requires proj.Valid() && proj.minItemUtil == (if |proj.paths| > 0 then miu else map[])
    modifies proj
    ensures proj.Valid()
    ensures proj.paths == old(proj.paths) + LocalInsert(e, ipu, miu, MinUtilConst)
    ensures proj.minItemUtil == (if |proj.paths| > 0 then miu else map[])
    ensures proj.headerList == old(proj.headerList)
  {
    var filtered, sorted, adjPathUtil := LocalFilter(e, ipu, miu);
    if |filtered| > 0 {
      proj.AddLocal(miu, sorted, adjPathUtil, e.count);
    }
  }

  /** The filtering of one entry in get_projected_tree: DLU, then
      `filtered.sort(key=lambda x: (-item_path_util[x], int(x)))`. */
  method LocalFilter(e: PathEntry, ipu: map<Item, int>, miu: map<Item, int>)
    returns (filtered: seq<Item>, sorted: seq<Item>, adjPathUtil: int)
    ensures filtered == LocalKept(e.path, ipu, MinUtilConst)
    ensures LocalInsert(e, ipu, miu, MinUtilConst)
      == if |filtered| > 0 then [Inserted(sorted, LocalWeights(sorted, adjPathUtil, e.count, miu))] else []
  {
    filtered, adjPathUtil := FilterPath(e.path, ipu, miu, e.util, e.count);
    sorted := SortBy(filtered, Rank(ipu));
    assert sorted == LocalPath(e, ipu, MinUtilConst);
    assert adjPathUtil == Adjusted(e, ipu, miu, MinUtilConst);
    if |filtered| > 0 {
      LocalInsertKept(e, ipu, miu, MinUtilConst);
      LocalEntryIs(e, ipu, miu, MinUtilConst, sorted, adjPathUtil);
    } else {
      LocalInsertNone(e, ipu, miu, MinUtilConst);
    }
  }

  /** The entry's insertion when the filter keeps an item ... */
  lemma LocalInsertKept(e: PathEntry, ipu: map<Item, int>, miu: map<Item, int>, threshold: int)
    requires |LocalKept(e.path, ipu, threshold)| > 0
    ensures var lp := LocalPath(e, ipu, threshold);
      LocalInsert(e, ipu, miu, threshold)
      == [Inserted(lp, LocalWeights(lp, Adjusted(e, ipu, miu, threshold), e.count, miu))]
  {
  }

  /** The entry of a kept path, given its sorted items and adjusted utility. */
  lemma LocalEntryIs(e: PathEntry, ipu: map<Item, int>, miu: map<Item, int>, threshold: int, lp: seq<Item>, adj: int)
    requires lp == LocalPath(e, ipu, threshold) && adj == Adjusted(e, ipu, miu, threshold)
    ensures LocalEntry(e, ipu, miu, threshold) == Inserted(lp, LocalWeights(lp, adj, e.count, miu))
  {
  }

  /** ... and when it keeps none. */
  lemma LocalInsertNone(e: PathEntry, ipu: map<Item, int>, miu: map<Item, int>, threshold: int)
    requires |LocalKept(e.path, ipu, threshold)| == 0
    ensures LocalInsert(e, ipu, miu, threshold) == []
  {
  }

  /** `sorted(keys, key=lambda x: (-table[x], int(x)))`. */
  method SortedByRank(keys: set<Item>, table: map<Item, int>) returns (r: seq<Item>)
    ensures SortedBy(r, Rank(table)) && Distinct(r)
    ensures forall x :: x in r <==> x in keys
  {
    var s: seq<Item> := [];
    var rest := keys;
    while rest != {}
      invariant rest <= keys && Distinct(s)
      invariant forall x :: x in s <==> x in keys && x !in rest
      decreases |rest|
    {
      I.SomeItem(rest);
      var y :| y in rest;
      s := s + [y];
      rest := rest - {y};
    }
    r := SortBy(s, Rank(table));
    DistinctPerm(r, s);
    forall x ensures x in r <==> x in s {
      assert x in r <==> x in multiset(r);
      assert x in s <==> x in multiset(s);
    }
  }

  /** `prefix_paths` of get_projected_tree on an item. */
  ghost function ProjEntries(nodes: seq<Node>, header: map<Item, seq<nat>>, item: Item): seq<PathEntry>
    requires Shape(nodes, header)
  {
    HeaderChain(nodes, item);
    ChainEntries(nodes, ChainOf(header, item))
  }

  /** `get_projected_tree(full_tree, item)`: a new tree holding, for each
      node of the item's chain with a nonempty prefix path, that path
      filtered by DLU, sorted by descending path utility and weighted by DLN;
      `header_list` is its items in the same order. */
  method GetProjectedTree(full: UpTree, item: Item) returns (proj: UpTree)
    requires full.Valid()
    ensures fresh(proj) && proj.Valid()
    ensures var es := ProjEntries(full.nodes, full.header, item);
      && proj.paths == LocalPaths(es, ItemPathUtil(es), full.minItemUtil, MinUtilConst)
      && SortedBy(proj.headerList, Rank(ItemPathUtil(es)))
    ensures proj.minItemUtil == (if |proj.paths| > 0 then full.minItemUtil else map[])
    ensures Distinct(proj.headerList) && forall x :: x in proj.headerList <==> x in proj.header
  {
    HeaderChain(full.nodes, item);
    var chain := if item in full.header then full.header[item] else [];
    assert chain == ChainOf(full.header, item);
    var entries, ipu := CollectPaths(full.nodes, chain);
    proj := new UpTree();
    BuildLocal(proj, entries, ipu, full.minItemUtil);
    proj.headerList := SortedByRank(proj.header.Keys, ipu);
  }

  /** The build loop of get_projected_tree over `prefix_paths`. */
  method BuildLocal(proj: UpTree, entries: seq<PathEntry>, ipu: map<Item, int>, miu: map<Item, int>)
    requires proj.Valid() && proj.paths == [] && proj.minItemUtil == map[]
    modifies proj
    ensures proj.Valid() && proj.paths == LocalPaths(entries, ipu, miu, MinUtilConst)
    ensures proj.minItemUtil == (if |proj.paths| > 0 then miu else map[])
  {
    assert entries[..0] == [];
    for k := 0 to |entries|
      invariant proj.Valid()
      invariant proj.paths == LocalPaths(entries[..k], ipu, miu, MinUtilConst)
      invariant proj.minItemUtil == (if |proj.paths| > 0 then miu else map[])
    {
      assert entries[..k + 1][..k] == entries[..k];
      AddLocalPath(proj, miu, entries[k], ipu);
    }
    assert entries[..|entries|] == entries;
  }

  /** The projection on an item of the header has a lower tree: each of its
      paths is a filtered prefix path of a node of the item's chain. */
  lemma ProjectionLower(nodes: seq<Node>, header: map<Item, seq<nat>>, ins: seq<Inserted>, item: Item,
                        miu: map<Item, int>)
    requires Holds(nodes, header, ins) && item in header
    ensures var es := ProjEntries(nodes, header, item);
      I.Height(LocalPaths(es, ItemPathUtil(es), miu, MinUtilConst)) < I.Height(ins)
  {
    HeaderChain(nodes, item);
    HeaderNonempty(nodes, item);
    var chain := ChainOf(header, item);
    var es := ChainEntries(nodes, chain);
    ChainEntriesShort(nodes, header, ins, chain);
    I.NodeHeight(nodes, header, ins, chain[0]);
    LocalPathsShort(es, ItemPathUtil(es), miu, MinUtilConst, I.Height(ins));
    HeightBelow(LocalPaths(es, ItemPathUtil(es), miu, MinUtilConst), I.Height(ins));
  }

  /** The `path_util` loop of get_candidates: the utilities along the
      item's chain, which sum the weights every inserted path gives the
      item. */
  method ChainUtil(tree: UpTree, x: Item) returns (pathUtil: int)
    requires tree.Valid() && x in tree.header
    ensures pathUtil == ChainValue(tree.nodes, tree.header, x)
    ensures pathUtil == PathTw(tree.paths, x, [])
  {
    HeaderChain(tree.nodes, x);
    assert tree.header[x] == ChainOf(tree.header, x);
    pathUtil := ChainSum(tree.nodes, tree.header[x]);
    ChainValueIsWeights(tree.nodes, tree.header, tree.paths, x);
  }

  /** `while current: path_util += current.twu; current = current.node_link`. */
  method ChainSum(nodes: seq<Node>, chain: seq<nat>) returns (total: int)
    requires Parented(nodes) && InRange(chain, |nodes|)
    ensures total == ProjSum(nodes, chain, [])
  {
    total := 0;
    assert chain[..0] == [];
    for j := 0 to |chain|
      invariant InRange(chain[..j], |nodes|) && total == ProjSum(nodes, chain[..j], [])
    {
      I.ProjSumStep(nodes, chain, j);
      total := total + nodes[chain[j]].twu;
    }
    assert chain[..|chain|] == chain;
  }

  /** X lies strictly below the prefix P in the search: a longer tuple
      that starts with P. */
  predicate Below(X: seq<Item>, P: seq<Item>) {
    |X| > |P| && X[..|P|] == P
  }

  /** `get_candidates(tree, minutil, prefix, candidates)`: the items of
      `header_list` from the last to the first, each mined by MineItem. The
      shared dictionary is passed in and returned. Only tuples below the
      prefix are touched, each recorded with a chain sum that reaches the
      threshold, and every item whose chain sum reaches it is recorded
      after the prefix with that sum. */
  method GetCandidates(tree: UpTree, minUtil: int, prefix: seq<Item>, cands0: map<seq<Item>, int>)
    returns (cands: map<seq<Item>, int>)
    requires tree.Valid() && Distinct(tree.headerList)
    requires forall x :: x in tree.headerList ==> x in tree.header
    ensures cands0.Keys <= cands.Keys
    ensures forall X :: X in cands && (X !in cands0 || cands[X] != cands0[X]) ==> Below(X, prefix) && cands[X] >= minUtil
    ensures forall x :: x in tree.headerList && ChainValue(tree.nodes, tree.header, x) >= minUtil ==>
      prefix + [x] in cands && cands[prefix + [x]] == ChainValue(tree.nodes, tree.header, x)
    decreases I.Height(tree.paths), 2
  {
    var hl := tree.headerList;
    cands := cands0;
    for i := |hl| downto 0
      invariant cands0.Keys <= cands.Keys
      invariant forall X :: X in cands && (X !in cands0 || cands[X] != cands0[X]) ==> Below(X, prefix) && cands[X] >= minUtil
      invariant forall k :: i <= k < |hl| && ChainValue(tree.nodes, tree.header, hl[k]) >= minUtil ==>
        prefix + [hl[k]] in cands && cands[prefix + [hl[k]]] == ChainValue(tree.nodes, tree.header, hl[k])
    {
      ghost var before := cands;
      cands := MineItem(tree, minUtil, prefix, hl[i], cands);
      forall X | X in cands && (X !in cands0 || cands[X] != cands0[X])
        ensures Below(X, prefix) && cands[X] >= minUtil
      {
        if X in before && cands[X] == before[X] {
        } else if X != prefix + [hl[i]] {
          BelowLonger(X, prefix, hl[i]);
        }
      }
      forall k | i < k < |hl| && ChainValue(tree.nodes, tree.header, hl[k]) >= minUtil
        ensures prefix + [hl[k]] in cands && cands[prefix + [hl[k]]] == ChainValue(tree.nodes, tree.header, hl[k])
      {
        assert hl[k] != hl[i];
        NotBelow(prefix, hl[k], hl[i]);
        assert prefix + [hl[k]] != prefix + [hl[i]] by {
          assert (prefix + [hl[k]])[|prefix|] == hl[k];
        }
      }
    }
  }

  /** A tuple one item longer than P lies below no tuple of that length. */
  lemma NotBelow(P: seq<Item>, x: Item, y: Item)
    ensures !Below(P + [x], P + [y])
  {
  }

  /** One item of get_candidates: the chain sum, and when it reaches the
      threshold, `prefix + [item]` recorded with it and the projection on
      the item mined below it when its `header_list` is not empty. */
  method MineItem(tree: UpTree, minUtil: int, prefix: seq<Item>, item: Item, cands0: map<seq<Item>, int>)
    returns (cands: map<seq<Item>, int>)
    requires tree.Valid() && item in tree.header
    ensures cands0.Keys <= cands.Keys
    ensures forall X :: X in cands && (X !in cands0 || cands[X] != cands0[X]) ==>
      (X == prefix + [item] || Below(X, prefix + [item])) && cands[X] >= minUtil
    ensures ChainValue(tree.nodes, tree.header, item) >= minUtil ==>
      prefix + [item] in cands && cands[prefix + [item]] == ChainValue(tree.nodes, tree.header, item)
    ensures ChainValue(tree.nodes, tree.header, item) < minUtil ==> cands == cands0
    decreases I.Height(tree.paths), 1
  {
    var pathUtil := ChainUtil(tree, item);
    if pathUtil < minUtil {
      cands := cands0;
      return;
    }
    var key := prefix + [item];
    cands := Extend(tree, minUtil, key, item, cands0[key := pathUtil]);
    assert !Below(key, key);
  }

  /** `proj = get_projected_tree(tree, item)` and, when its `header_list`
      is not empty, the mining of the projection below the key. */
  method Extend(tree: UpTree, minUtil: int, key: seq<Item>, item: Item, cands0: map<seq<Item>, int>)
    returns (cands: map<seq<Item>, int>)
    requires tree.Valid() && item in tree.header
    ensures cands0.Keys <= cands.Keys
    ensures forall X :: X in cands && (X !in cands0 || cands[X] != cands0[X]) ==> Below(X, key) && cands[X] >= minUtil
    decreases I.Height(tree.paths), 0
  {
    var proj := GetProjectedTree(tree, item);
    if |proj.headerList| > 0 {
      ProjectionLower(tree.nodes, tree.header, tree.paths, item, tree.minItemUtil);
      cands := GetCandidates(proj, minUtil, key, cands0);
    } else {
      cands := cands0;
    }
  }

  /** Below P + [x] is below P. */
  lemma BelowLonger(X: seq<Item>, P: seq<Item>, x: Item)
    requires Below(X, P + [x])
    ensures Below(X, P)
  {
    assert X[..|P|] == X[..|P| + 1][..|P|];
  }

  /** The DGU loop over one line of get_high_utility_itemsets: the pairs
      whose item's TWU reaches the threshold, in order, with the sum of
      their utilities, each lowering its item's `min_item_util`. */
  method KeepPromising(tree: UpTree, t: Txn, twu: map<Item, int>, minUtil: int)
    returns (filtered: seq<Pair>, filteredUtil: int)
    modifies tree
    ensures filtered == DguPairs(t, twu, minUtil) && filteredUtil == Sum(Seconds(filtered))
    ensures tree.minItemUtil == MinUpdate(old(tree.minItemUtil), filtered)
    ensures tree.nodes == old(tree.nodes) && tree.header == old(tree.header) && tree.paths == old(tree.paths)
    ensures tree.headerList == old(tree.headerList)
  {
    ghost var zs := ZipPairs(t.items, t.utils);
    ghost var kept := ExpHui.Kept(twu, minUtil);
    ghost var m0 := tree.minItemUtil;
    filtered := [];
    filteredUtil := 0;
    var n := Min(|t.items|, |t.utils|);
    assert zs[..0] == [];
    for j := 0 to n
      invariant filtered == KeepPairs(zs[..j], kept) && filteredUtil == Sum(Seconds(filtered))
      invariant tree.minItemUtil == MinUpdate(m0, filtered)
      invariant tree.nodes == old(tree.nodes) && tree.header == old(tree.header) && tree.paths == old(tree.paths)
      invariant tree.headerList == old(tree.headerList)
    {
      var i := t.items[j];
      var u := t.utils[j];
      DguSnoc(zs, j, kept, filtered, m0);
      if i in twu && twu[i] >= minUtil {
        filtered := filtered + [(i, u)];
        filteredUtil := filteredUtil + u;
        tree.LowerMin(i, u);
      }
    }
    assert zs[..n] == zs;
  }

  /** One pair of the DGU loop: the kept prefix, its utility sum and its
      minimum utilities each grow by the pair when its item is kept. */
  lemma DguSnoc(zs: seq<Pair>, j: nat, kept: set<Item>, filtered: seq<Pair>, m0: map<Item, int>)
    requires j < |zs| && filtered == KeepPairs(zs[..j], kept)
    ensures var p := zs[j];
      KeepPairs(zs[..j + 1], kept) == filtered + (if p.0 in kept then [p] else [])
    ensures var p := zs[j];
      && Sum(Seconds(filtered + [p])) == Sum(Seconds(filtered)) + p.1
      && var m := MinUpdate(m0, filtered);
      MinUpdate(m0, filtered + [p]) == if p.0 !in m || p.1 < m[p.0] then m[p.0 := p.1] else m
  {
    var p := zs[j];
    assert zs[..j + 1] == zs[..j] + [p];
    KeepPairsSnoc(zs[..j], p, kept);
    assert Seconds(filtered + [p]) == Seconds(filtered) + [p.1];
    SumSnoc(Seconds(filtered), p.1);
    MinUpdateSnoc(m0, filtered, p);
  }

  lemma MinUpdateSnoc(m0: map<Item, int>, ps: seq<Pair>, p: Pair)
    ensures var m := MinUpdate(m0, ps);
      MinUpdate(m0, ps + [p]) == if p.0 !in m || p.1 < m[p.0] then m[p.0 := p.1] else m
  {
    assert (ps + [p])[..|ps|] == ps;
  }

  /** One line of the DGU loop: the kept pairs, sorted by descending TWU,
      inserted with their utility sum when there are any. */
  method LoadLine(tree: UpTree, db: seq<Txn>, k: nat, twu: map<Item, int>, minUtil: int)
    requires k < |db| && tree.Valid()
    requires tree.paths == UpLines(db[..k], twu, minUtil) && tree.minItemUtil == MiuAfter(db[..k], twu, minUtil)
    modifies tree
    ensures tree.Valid() && tree.headerList == old(tree.headerList)
    ensures tree.paths == UpLines(db[..k + 1], twu, minUtil) && tree.minItemUtil == MiuAfter(db[..k + 1], twu, minUtil)
  {
    assert db[..k + 1][..k] == db[..k];
    var filtered, filteredUtil := KeepPromising(tree, db[k], twu, minUtil);
    var sorted := SortBy(filtered, PairRank(twu));
    if |filtered| > 0 {
      tree.InsertTransaction(sorted, filteredUtil);
    }
  }

  /** The DGU pass of get_high_utility_itemsets: every line loaded by
      LoadLine, then `header_list`, the tree's items by descending TWU. */
  method LoadTree(db: seq<Txn>, twu: map<Item, int>, minUtil: int) returns (tree: UpTree)
    ensures fresh(tree) && tree.Valid()
    ensures tree.paths == UpLines(db, twu, minUtil) && tree.minItemUtil == MiuAfter(db, twu, minUtil)
    ensures SortedBy(tree.headerList, Rank(twu)) && Distinct(tree.headerList)
    ensures forall x :: x in tree.headerList <==> x in tree.header
  {
    tree := new UpTree();
    assert db[..0] == [];
    for k := 0 to |db|
      invariant fresh(tree) && tree.Valid()
      invariant tree.paths == UpLines(db[..k], twu, minUtil) && tree.minItemUtil == MiuAfter(db[..k], twu, minUtil)
    {
      LoadLine(tree, db, k, twu, minUtil);
    }
    assert db[..|db|] == db;
    tree.headerList := SortedByRank(tree.header.Keys, twu);
  }

  /** `get_high_utility_itemsets(file_path, minutil)` after parsing: the
      TWU table, the DGU pass, the candidates under the empty prefix and
      their exact utilities over the lines as read. Every result is a
      nonempty tuple carrying its utility, which reaches the threshold. */
  method GetHighUtilityItemsets(db: seq<Txn>, minUtil: int) returns (results: map<seq<Item>, int>)
    ensures forall X :: X in results ==> |X| > 0 && results[X] == Utility(X, db) >= minUtil
  {
    var twu := ExpTwoPhase.OccurrenceTwus(db);
    var tree := LoadTree(db, twu, minUtil);
    var cands := GetCandidates(tree, minUtil, [], map[]);
    results := ExactHighUtils(cands, db, minUtil);
  }
}
