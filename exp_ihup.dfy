/** The IHUP engine of experiments/ihup.py: a prefix tree of the lines'
    sorted items, each node carrying the summed totals of the lines through
    it; candidates are mined from the header chains and their projections,
    recorded with their chain sums in a shared dictionary, and checked
    against the exact utilities at the end. */
module ExpIhup {
  import opened Db
  import opened PrefixTree
  import opened ExpIhupTheory
  import opened ExpIhupDb
  import opened ExactUtils
  import A = Apriori

  class IhupTree {
    var nodes: seq<Node>
    var header: map<Item, seq<nat>>
    /** The (path, utility) pairs inserted so far. */
    ghost var paths: seq<Inserted>

    ghost predicate Valid()
      reads this
    {
      Holds(nodes, header, paths)
    }

    /** `IHUPTree()`: the root alone and an empty header. */
    constructor ()
      ensures Valid() && nodes == [Root()] && header == map[] && paths == []
    {
      nodes := [Root()];
      header := map[];
      paths := [];
    }

    /** `node.increment_vals(twu)`: d more utility and one more count. */
    method IncrementVals(n: nat, d: int)
      requires n < |nodes|
      modifies this
      ensures nodes == Bumped(old(nodes), n, d)
      ensures header == old(header) && paths == old(paths)
    {
      nodes := nodes[n := nodes[n].(twu := nodes[n].twu + d, tf := nodes[n].tf + 1)];
    }

    /** `update_header(node)`: the node goes at the end of its item's
        chain, which is started when the item is new. */
    method UpdateHeader(n: nat)
      requires n < |nodes|
      modifies this
      ensures nodes == old(nodes) && paths == old(paths)
      ensures header == Appended(old(header), nodes[n].item, n)
    {
      var x := nodes[n].item;
      if x in header {
        header := header[x := header[x] + [n]];
      } else {
        assert ChainOf(header, x) + [n] == [n];
        header := header[x := [n]];
      }
    }

    /** One pass of the insertion loop: the child of `current` for the
        item gains d, or is created with it. */
    method Step(ghost a: seq<Node>, ghost t: seq<Item>, ghost w: seq<int>, k: nat, current: nat, item: Item, d: int)
      returns (child: nat)
      requires |t| == |w| && k < |t| && item == t[k] && d == w[k]
      requires Walked(nodes, header, paths, t, w, k, current)
      requires Parented(a) && Parented(nodes) && Grown(a, nodes, t[..k], w)
      modifies this
      ensures Walked(nodes, header, paths, t, w, k + 1, child)
      ensures Parented(nodes) && Grown(a, nodes, t[..k + 1], w)
      ensures paths == old(paths)
    {
      if item in nodes[current].children {
        child := nodes[current].children[item];
        ChildExists(nodes, header, current, item);
        WalkIncrement(nodes, header, paths, t, w, k, current, child);
        GrownIncrement(a, nodes, t, w, k, current, child);
        IncrementVals(child, d);
      } else {
        child := |nodes|;
        WalkCreate(nodes, header, paths, t, w, k, current);
        GrownCreate(a, nodes, t, w, k, current);
        nodes := nodes[current := nodes[current].(children := nodes[current].children[item := child])]
          + [Node(item, d, 1, current, map[])];
        UpdateHeader(child);
      }
    }

    /** `insert_transaction(transaction, transaction_utility)`: the walk
        from the root along the items, incrementing the child for the next
        item when there is one and creating it with the utility otherwise. */
    method InsertTransaction(t: seq<Item>, u: int)
      requires Valid()
      modifies this
      ensures Valid() && paths == old(paths) + [Inserted(t, Uniform(|t|, u))]
      ensures Parented(old(nodes)) && Parented(nodes) && Grown(old(nodes), nodes, t, Uniform(|t|, u))
      ensures u >= 0 && ChildBound(old(nodes)) ==> ChildBound(nodes)
    {
      ghost var w := Uniform(|t|, u);
      WalkStart(nodes, header, paths, t, w);
      var current: nat := 0;
      for k := 0 to |t|
        invariant Walked(nodes, header, paths, t, w, k, current)
        invariant paths == old(paths) && Parented(old(nodes)) && Parented(nodes) && Grown(old(nodes), nodes, t[..k], w)
      {
        assert w[k] == u;
        current := Step(old(nodes), t, w, k, current, t[k], u);
      }
      WalkEnd(nodes, header, paths, t, w, current);
      assert t[..|t|] == t;
      paths := paths + [Inserted(t, w)];
      if u >= 0 && ChildBound(old(nodes)) {
        GrownBound(old(nodes), nodes, t, w, u);
      }
    }
  }

  /** `get_prefix_path(node)`: the walk up the parents, prepending each
      item, until the root. */
  method GetPrefixPath(tree: IhupTree, n: nat) returns (path: seq<Item>)
    requires tree.Valid() && n < |tree.nodes|
    ensures path == PrefixPath(tree.nodes, n)
  {
    path := [];
    var current: nat := tree.nodes[n].parent;
    while current != 0
      invariant current < |tree.nodes|
      invariant PathTo(tree.nodes, current) + path == PrefixPath(tree.nodes, n)
      decreases current
    {
      assert PathTo(tree.nodes, current) == PathTo(tree.nodes, tree.nodes[current].parent) + [tree.nodes[current].item];
      path := [tree.nodes[current].item] + path;
      current := tree.nodes[current].parent;
    }
  }

  /** `get_projected_tree(full_tree, item)`: a new tree into which the
      nonempty prefix path of every node of the item's chain is inserted
      with that node's utility. */
  method GetProjectedTree(full: IhupTree, x: Item) returns (proj: IhupTree)
    requires full.Valid()
    ensures fresh(proj) && proj.Valid()
    ensures (HeaderChain(full.nodes, x); proj.paths == ProjPaths(full.nodes, ChainOf(full.header, x)))
    ensures NodesNonneg(full.nodes) ==> ChildBound(proj.nodes)
  {
    proj := new IhupTree();
    HeaderChain(full.nodes, x);
    var chain := if x in full.header then full.header[x] else [];
    assert chain == ChainOf(full.header, x);
    assert chain[..0] == [];
    for j := 0 to |chain|
      invariant proj.Valid()
      invariant InRange(chain[..j], |full.nodes|) && proj.paths == ProjPaths(full.nodes, chain[..j])
      invariant NodesNonneg(full.nodes) ==> ChildBound(proj.nodes)
    {
      ProjPathsStep(full.nodes, chain, j);
      AddPrefixPath(proj, full, chain[j]);
    }
    assert chain[..|chain|] == chain;
  }

  /** One node of the chain in get_projected_tree: its prefix path, when
      not empty, inserted into the projection with the node's utility. */
  method AddPrefixPath(proj: IhupTree, full: IhupTree, c: nat)
    requires proj.Valid() && full.Valid() && proj != full && c < |full.nodes|
    modifies proj
    ensures proj.Valid()
    ensures var pre := PrefixPath(full.nodes, c);
      proj.paths == old(proj.paths) + (if |pre| > 0 then [Inserted(pre, Uniform(|pre|, full.nodes[c].twu))] else [])
    ensures NodesNonneg(full.nodes) && ChildBound(old(proj.nodes)) ==> ChildBound(proj.nodes)
  {
    var prefix := GetPrefixPath(full, c);
    if |prefix| > 0 {
      proj.InsertTransaction(prefix, full.nodes[c].twu);
    }
  }

  /** The `twu_sum` loop of get_candidates: the utilities along the item's
      chain. */
  method ChainTwu(tree: IhupTree, x: Item) returns (twuSum: int)
    requires tree.Valid() && x in tree.header
    ensures (HeaderChain(tree.nodes, x); twuSum == ProjSum(tree.nodes, ChainOf(tree.header, x), []))
  {
    HeaderChain(tree.nodes, x);
    var nodes, chain := tree.nodes, tree.header[x];
    assert chain == ChainOf(tree.header, x) && Parented(nodes) && InRange(chain, |nodes|);
    twuSum := 0;
    assert chain[..0] == [];
    for j := 0 to |chain|
      invariant InRange(chain[..j], |nodes|) && twuSum == ProjSum(nodes, chain[..j], [])
    {
      ProjSumStep(nodes, chain, j);
      twuSum := twuSum + nodes[chain[j]].twu;
    }
    assert chain[..|chain|] == chain;
  }

  /** `sorted(tree.header_table.keys(), key=int)`. */
  method SortedKeys(keys: set<Item>) returns (r: seq<Item>)
    ensures A.Increasing(r) && forall x :: x in r <==> x in keys
  {
    var s: seq<Item> := [];
    var rest := keys;
    while rest != {}
      invariant rest <= keys && Distinct(s)
      invariant forall x :: x in s <==> x in keys && x !in rest
      decreases |rest|
    {
      SomeItem(rest);
      var y :| y in rest;
      s := s + [y];
      rest := rest - {y};
    }
    r := SortedItems(s);
    SortedItemsDistinct(s);
    SortedItemsSame(s);
  }

  /** `get_candidates(tree, minutil, prefix, candidates)`: every item of
      the header, in ascending order, mined by MineItem. The shared
      dictionary is passed in and returned. Whatever database the tree
      relates to under the prefix, every recorded candidate is good and
      every wanted itemset is recorded. */
  method GetCandidates(tree: IhupTree, minUtil: int, prefix: seq<Item>, cands0: map<seq<Item>, int>, ghost db: seq<Txn>)
    returns (cands: map<seq<Item>, int>)
    requires tree.Valid()
    ensures cands0.Keys <= cands.Keys
    ensures Rel(tree.paths, db, prefix) && AllGood(cands0, db, minUtil) ==> AllGood(cands, db, minUtil)
    ensures Rel(tree.paths, db, prefix) && TotalsNonneg(db) && minUtil > 0 ==>
      forall Z :: Wanted(Z, prefix, db, minUtil) ==> SortedItems(Z + prefix) in cands
    decreases Height(tree.paths), 2
  {
    var keys := SortedKeys(tree.header.Keys);
    ghost var good := Rel(tree.paths, db, prefix) && AllGood(cands0, db, minUtil);
    ghost var complete := Rel(tree.paths, db, prefix) && TotalsNonneg(db) && minUtil > 0;
    ghost var done: set<Item> := {};
    cands := cands0;
    for i := 0 to |keys|
      invariant cands0.Keys <= cands.Keys
      invariant good ==> AllGood(cands, db, minUtil)
      invariant forall k :: 0 <= k < i ==> keys[k] in done
      invariant complete ==> CoveredBy(prefix, db, minUtil, done, cands)
    {
      ghost var before := cands;
      cands := MineItem(tree, minUtil, prefix, keys[i], cands, db);
      if complete {
        CoverStep(prefix, db, minUtil, done, keys[i], before, cands);
      }
      done := done + {keys[i]};
    }
    if complete {
      forall x | x in tree.header ensures x in done {
        var k :| 0 <= k < |keys| && keys[k] == x;
      }
      CoverAll(tree.nodes, tree.header, tree.paths, db, prefix, minUtil, done, cands);
    }
  }

  /** One item of get_candidates: the chain sum, and when it reaches the
      threshold, the recording and the mining below the item. */
  method MineItem(tree: IhupTree, minUtil: int, prefix: seq<Item>, item: Item, cands0: map<seq<Item>, int>, ghost db: seq<Txn>)
    returns (cands: map<seq<Item>, int>)
    requires tree.Valid() && item in tree.header
    ensures cands0.Keys <= cands.Keys
    ensures Rel(tree.paths, db, prefix) && AllGood(cands0, db, minUtil) ==> AllGood(cands, db, minUtil)
    ensures Rel(tree.paths, db, prefix) && TotalsNonneg(db) && minUtil > 0 ==>
      forall Z :: Wanted(Z, prefix, db, minUtil) && Z[|Z| - 1] == item ==> SortedItems(Z + prefix) in cands
    decreases Height(tree.paths), 1
  {
    if Rel(tree.paths, db, prefix) && TotalsNonneg(db) && minUtil > 0 {
      Promising(tree.nodes, tree.header, tree.paths, db, prefix, minUtil);
    }
    var twuSum := ChainTwu(tree, item);
    if twuSum >= minUtil {
      cands := Extend(tree, minUtil, prefix, item, twuSum, cands0, db);
      if Rel(tree.paths, db, prefix) && TotalsNonneg(db) && minUtil > 0 {
        Covered(db, prefix, item, minUtil, cands);
      }
    } else {
      cands := cands0;
    }
  }

  /** An item whose chain sum reaches the threshold: the sorted
      `prefix + [item]` recorded with the sum, and the projection on the
      item mined in turn when its root has children. */
  method Extend(tree: IhupTree, minUtil: int, prefix: seq<Item>, item: Item, twuSum: int, cands0: map<seq<Item>, int>, ghost db: seq<Txn>)
    returns (cands: map<seq<Item>, int>)
    requires tree.Valid() && item in tree.header && twuSum >= minUtil
    requires (HeaderChain(tree.nodes, item); twuSum == ProjSum(tree.nodes, ChainOf(tree.header, item), []))
    ensures cands0.Keys <= cands.Keys && SortedItems(prefix + [item]) in cands
    ensures Rel(tree.paths, db, prefix) && AllGood(cands0, db, minUtil) ==> AllGood(cands, db, minUtil)
    ensures Rel(tree.paths, db, prefix) && TotalsNonneg(db) && minUtil > 0 ==>
      forall Z :: Wanted(Z, prefix + [item], db, minUtil) ==> SortedItems(Z + (prefix + [item])) in cands
    decreases Height(tree.paths), 0
  {
    ghost var rel := Rel(tree.paths, db, prefix);
    var key := SortedItems(prefix + [item]);
    if rel {
      RecordGood(tree.nodes, tree.header, tree.paths, db, prefix, item, twuSum, minUtil);
      if AllGood(cands0, db, minUtil) {
        AllGoodUpdate(cands0, key, twuSum, db, minUtil);
      }
    }
    cands := cands0[key := twuSum];
    var proj := GetProjectedTree(tree, item);
    if rel {
      ProjRel(tree.nodes, tree.header, tree.paths, db, prefix, item);
      if TotalsNonneg(db) && minUtil > 0 {
        Deeper(proj.nodes, proj.header, proj.paths, db, prefix, item, minUtil);
      }
    }
    if |proj.nodes[0].children| > 0 {
      ProjHeight(tree.nodes, tree.header, tree.paths, item);
      cands := GetCandidates(proj, minUtil, prefix + [item], cands, db);
    }
  }
  /** `get_high_utility_itemsets(file_path, minutil)` after parsing: each
      line sorted by item is stored and inserted with its total, the
      candidates are mined under the empty prefix, and their exact utilities
      over the stored lines decide the result. On a well-formed database
      with a positive threshold the result is exactly the nonempty
      increasing itemsets whose utility reaches the threshold, each with its
      utility. */
  method GetHighUtilityItemsets(db: seq<Txn>, minUtil: int) returns (results: map<seq<Item>, int>)
    ensures forall X :: X in results ==> results[X] == Utility(X, SortedDb(db)) >= minUtil
    ensures WellFormedDb(db) ==>
      forall X :: X in results ==> |X| > 0 && A.Increasing(X) && results[X] == Utility(X, db)
    ensures WellFormedDb(db) && minUtil > 0 ==>
      forall X :: |X| > 0 && A.Increasing(X) && Utility(X, db) >= minUtil ==> X in results
  {
    var tree, transactions := LoadTree(db);
    var cands := GetCandidates(tree, minUtil, [], map[], transactions);
    results := ExactHighUtils(cands, transactions, minUtil);
    if WellFormedDb(db) {
      SortedDbShape(db);
      LinesRel(transactions);
      ResultsExact(db, minUtil, cands, results);
      if minUtil > 0 {
        ResultsComplete(db, minUtil, cands, results);
      }
    }
  }

  /** The reading loop of get_high_utility_itemsets: each line, sorted by
      item, is appended to the stored transactions and inserted into the
      tree with its total. */
  method LoadTree(db: seq<Txn>) returns (tree: IhupTree, transactions: seq<Txn>)
    ensures fresh(tree) && tree.Valid()
    ensures transactions == SortedDb(db) && tree.paths == Lines(transactions)
    ensures TotalsNonneg(db) ==> ChildBound(tree.nodes)
  {
    transactions := [];
    tree := new IhupTree();
    for k := 0 to |db|
      invariant fresh(tree)
      invariant transactions == SortedDb(db[..k])
      invariant tree.Valid() && tree.paths == Lines(transactions)
      invariant TotalsNonneg(db) ==> ChildBound(tree.nodes)
    {
      var line := SortedLine(db[k]);
      LoadStep(db, k, transactions);
      transactions := transactions + [line];
      tree.InsertTransaction(line.items, line.total);
    }
    assert db[..|db|] == db;
  }
}
