/** The prefix tree shared by experiments/ihup.py and experiments/up_growth.py,
    as an arena: node 0 is the root (whose item is None in the source and is
    never read here), every other node has an item, an accumulated weight
    `twu`, a count `tf`, a parent of smaller index and its children by item.
    The header maps each item to the chain of its nodes, linked by
    `node_link` in the source; appending at the end of that chain keeps the
    nodes in creation order, so the chain is the sequence of the indices of
    the nodes with that item.

    What a tree holds is described by the paths inserted into it, each with
    the weight it adds at each depth. The invariant that makes mining work:
    for every item x and itemset Y, the chain of x summed over the nodes
    whose prefix path holds Y equals the sum over the inserted paths of the
    weights at the positions of x preceded by all of Y. */
module PrefixTree {
  import opened Db

  datatype Node = Node(item: Item, twu: int, tf: int, parent: nat, children: map<Item, nat>)

  /** One call of insert_transaction: the path and the weight added at each
      depth. */
  datatype Inserted = Inserted(path: seq<Item>, weights: seq<int>)

  /** `Node(item=None, twu=0, tf=0)`: the root; its item is unused. */
  function Root(): Node {
    Node(0, 0, 0, 0, map[])
  }

  // ---------------------------------------------------------------------
  // Shape

  predicate Parented(nodes: seq<Node>) {
    && |nodes| > 0 && nodes[0].parent == 0
    && forall n :: 0 < n < |nodes| ==> nodes[n].parent < n
  }

  /** The items from the root's child down to n: `get_prefix_path(n) + [n.item]`. */
  function PathTo(nodes: seq<Node>, n: nat): seq<Item>
    requires Parented(nodes) && n < |nodes|
    decreases n
  {
    if n == 0 then [] else PathTo(nodes, nodes[n].parent) + [nodes[n].item]
  }

  /** `get_prefix_path(n)`: the items of n's proper ancestors, top-down,
      without the root. */
  function PrefixPath(nodes: seq<Node>, n: nat): seq<Item>
    requires Parented(nodes) && n < |nodes|
  {
    PathTo(nodes, nodes[n].parent)
  }

  /** The child for x of p is a node of item x whose parent is p. */
  predicate ChildOk(nodes: seq<Node>, p: nat, x: Item)
    requires p < |nodes| && x in nodes[p].children
  {
    var c := nodes[p].children[x];
    0 < c < |nodes| && nodes[c].parent == p && nodes[c].item == x
  }

  /** n is its parent's child for its item. */
  predicate Registered(nodes: seq<Node>, n: nat)
    requires Parented(nodes) && 0 < n < |nodes|
  {
    var p := nodes[n].parent;
    nodes[n].item in nodes[p].children && nodes[p].children[nodes[n].item] == n
  }

  predicate Linked(nodes: seq<Node>)
    requires Parented(nodes)
  {
    && (forall p, x :: 0 <= p < |nodes| && x in nodes[p].children ==> ChildOk(nodes, p, x))
    && (forall n :: 0 < n < |nodes| ==> Registered(nodes, n))
  }

  function ChainOf(h: map<Item, seq<nat>>, x: Item): seq<nat> {
    if x in h then h[x] else []
  }

  /** `update_header(node)`: node appended at the end of its item's chain. */
  function Appended(h: map<Item, seq<nat>>, x: Item, n: nat): map<Item, seq<nat>> {
    h[x := ChainOf(h, x) + [n]]
  }

  /** The header of nodes created in index order. */
  function HeaderOf(nodes: seq<Node>): map<Item, seq<nat>>
    decreases |nodes|
  {
    if |nodes| <= 1 then map[]
    else Appended(HeaderOf(nodes[..|nodes| - 1]), nodes[|nodes| - 1].item, |nodes| - 1)
  }

  /** A well-linked tree whose root has weight and count 0 and whose header
      lists, per item, its nodes in creation order. */
  predicate Shape(nodes: seq<Node>, header: map<Item, seq<nat>>) {
    && Parented(nodes) && Linked(nodes)
    && nodes[0].twu == 0 && nodes[0].tf == 0
    && header == HeaderOf(nodes)
  }

  predicate Increasing(s: seq<nat>) {
    forall i, j :: 0 <= i < j < |s| ==> s[i] < s[j]
  }

  predicate InRange(chain: seq<nat>, n: nat) {
    forall i :: 0 <= i < |chain| ==> chain[i] < n
  }

  // ---------------------------------------------------------------------
  // What a tree holds

  predicate Within(Y: seq<Item>, s: seq<Item>) {
    forall y :: y in Y ==> y in s
  }

  predicate IsPrefix(a: seq<Item>, b: seq<Item>) {
    |a| <= |b| && b[..|a|] == a
  }

  predicate AllAligned(ins: seq<Inserted>) {
    forall k :: 0 <= k < |ins| ==> |ins[k].path| == |ins[k].weights|
  }

  /** Over the chain's nodes whose prefix path holds every item of Y, the sum
      of `twu`. */
  function ProjSum(nodes: seq<Node>, chain: seq<nat>, Y: seq<Item>): int
    requires Parented(nodes) && InRange(chain, |nodes|)
    decreases |chain|
  {
    if |chain| == 0 then 0
    else
      var c := chain[|chain| - 1];
      ProjSum(nodes, chain[..|chain| - 1], Y) + (if Within(Y, PrefixPath(nodes, c)) then nodes[c].twu else 0)
  }

  /** Over the positions of x in one path preceded by every item of Y, the
      sum of the weights. */
  function PosTw(t: seq<Item>, w: seq<int>, x: Item, Y: seq<Item>): int
    requires |t| == |w|
    decreases |t|
  {
    if |t| == 0 then 0
    else
      var k := |t| - 1;
      PosTw(t[..k], w[..k], x, Y) + (if t[k] == x && Within(Y, t[..k]) then w[k] else 0)
  }

  function PathTw(ins: seq<Inserted>, x: Item, Y: seq<Item>): int
    requires AllAligned(ins)
    decreases |ins|
  {
    if |ins| == 0 then 0
    else
      var k := |ins| - 1;
      assert AllAligned(ins[..k]) by {
        forall j | 0 <= j < k ensures |ins[..k][j].path| == |ins[..k][j].weights| {
          assert ins[..k][j] == ins[j];
        }
      }
      PathTw(ins[..k], x, Y) + PosTw(ins[k].path, ins[k].weights, x, Y)
  }

  ghost predicate Sums(nodes: seq<Node>, header: map<Item, seq<nat>>, ins: seq<Inserted>)
    requires Shape(nodes, header) && AllAligned(ins)
  {
    forall x, Y :: HeaderChain(nodes, x); ProjSum(nodes, ChainOf(header, x), Y) == PathTw(ins, x, Y)
  }

  /** Every node lies on an inserted path. */
  ghost predicate Reach(nodes: seq<Node>, ins: seq<Inserted>)
    requires Parented(nodes)
  {
    forall n :: 0 < n < |nodes| ==> exists k :: 0 <= k < |ins| && IsPrefix(PathTo(nodes, n), ins[k].path)
  }

  /** The first item of every nonempty inserted path is a child of the root. */
  predicate RootKids(nodes: seq<Node>, ins: seq<Inserted>)
    requires |nodes| > 0
  {
    forall k :: 0 <= k < |ins| && |ins[k].path| > 0 ==> ins[k].path[0] in nodes[0].children
  }

  ghost predicate Holds(nodes: seq<Node>, header: map<Item, seq<nat>>, ins: seq<Inserted>) {
    && Shape(nodes, header) && AllAligned(ins)
    && Sums(nodes, header, ins) && Reach(nodes, ins) && RootKids(nodes, ins)
  }

  // ---------------------------------------------------------------------
  // Lemmas about the shape

  /** The chain lists, in increasing order, nodes of item x only. */
  predicate ChainFor(nodes: seq<Node>, chain: seq<nat>, x: Item) {
    && InRange(chain, |nodes|) && Increasing(chain)
    && forall i :: 0 <= i < |chain| ==> 0 < chain[i] < |nodes| && nodes[chain[i]].item == x
  }

  /** Each chain of the header lists, in increasing order, exactly the
      nodes of its item. */
  lemma {:induction false} HeaderChain(nodes: seq<Node>, x: Item)
    ensures ChainFor(nodes, ChainOf(HeaderOf(nodes), x), x)
    ensures forall n :: 0 < n < |nodes| && nodes[n].item == x ==> n in ChainOf(HeaderOf(nodes), x)
    decreases |nodes|
  {
    if |nodes| > 1 {
      var m := |nodes| - 1;
      var init := nodes[..m];
      HeaderChain(init, x);
      var c0 := ChainOf(HeaderOf(init), x);
      var c := ChainOf(HeaderOf(nodes), x);
      assert c == if nodes[m].item == x then c0 + [m] else c0;
      forall i | 0 <= i < |c| ensures 0 < c[i] < |nodes| && nodes[c[i]].item == x {
        if i < |c0| {
          assert c[i] == c0[i] && init[c0[i]] == nodes[c0[i]];
        }
      }
      forall n | 0 < n < |nodes| && nodes[n].item == x ensures n in c {
        if n < m {
          assert init[n] == nodes[n];
        }
      }
    }
  }

  /** Every chain of the header is nonempty. */
  lemma {:induction false} HeaderNonempty(nodes: seq<Node>, x: Item)
    requires x in HeaderOf(nodes)
    ensures |HeaderOf(nodes)[x]| > 0
    decreases |nodes|
  {
    if |nodes| > 1 && nodes[|nodes| - 1].item != x {
      HeaderNonempty(nodes[..|nodes| - 1], x);
    }
  }

  /** The header depends only on the items of the nodes. */
  lemma {:induction false} HeaderSameItems(a: seq<Node>, b: seq<Node>)
    requires |a| == |b| && forall n :: 0 <= n < |a| ==> a[n].item == b[n].item
    ensures HeaderOf(a) == HeaderOf(b)
    decreases |a|
  {
    if |a| > 1 {
      var m := |a| - 1;
      HeaderSameItems(a[..m], b[..m]);
    }
  }

  /** The paths of the old nodes survive when items and parents do. */
  lemma {:induction false} PathSame(a: seq<Node>, b: seq<Node>, n: nat)
    requires Parented(a) && Parented(b) && n < |a| <= |b|
    requires forall m :: 0 <= m < |a| ==> a[m].item == b[m].item && a[m].parent == b[m].parent
    ensures PathTo(a, n) == PathTo(b, n)
    decreases n
  {
    if n > 0 {
      PathSame(a, b, a[n].parent);
    }
  }

  /** Two nodes with the same path are the same node. */
  lemma {:induction false} PathInjective(nodes: seq<Node>, m: nat, n: nat)
    requires Parented(nodes) && Linked(nodes) && m < |nodes| && n < |nodes|
    ensures PathTo(nodes, m) == PathTo(nodes, n) ==> m == n
    decreases m + n
  {
    if m > 0 && n > 0 && PathTo(nodes, m) == PathTo(nodes, n) {
      var pm, pn := nodes[m].parent, nodes[n].parent;
      assert PathTo(nodes, pm) == PathTo(nodes, m)[..|PathTo(nodes, m)| - 1];
      assert PathTo(nodes, pn) == PathTo(nodes, n)[..|PathTo(nodes, n)| - 1];
      PathInjective(nodes, pm, pn);
      assert Registered(nodes, m) && Registered(nodes, n);
    }
  }

  /** Items, parents and children decide the structure, the header and the
      paths. */
  lemma SameStructure(a: seq<Node>, b: seq<Node>)
    requires Parented(a) && Linked(a) && |a| == |b|
    requires forall n :: 0 <= n < |a| ==> b[n].item == a[n].item && b[n].parent == a[n].parent && b[n].children == a[n].children
    ensures Parented(b) && Linked(b) && HeaderOf(b) == HeaderOf(a)
    ensures forall n :: 0 <= n < |a| ==> PathTo(b, n) == PathTo(a, n)
  {
    assert Parented(b);
    forall p, y | 0 <= p < |b| && y in b[p].children ensures ChildOk(b, p, y) {
      assert ChildOk(a, p, y);
    }
    forall n | 0 < n < |b| ensures Registered(b, n) {
      assert Registered(a, n);
    }
    HeaderSameItems(a, b);
    forall n | 0 <= n < |a| ensures PathTo(b, n) == PathTo(a, n) {
      PathSame(a, b, n);
    }
  }

  /** Adding the child for x under p keeps the tree linked. */
  lemma CreateLinked(nodes: seq<Node>, p: nat, x: Item, d: int, b: seq<Node>)
    requires Parented(nodes) && Linked(nodes) && p < |nodes| && x !in nodes[p].children
    requires b == nodes[p := nodes[p].(children := nodes[p].children[x := |nodes|])] + [Node(x, d, 1, p, map[])]
    ensures Parented(b) && Linked(b)
    ensures forall n :: 0 <= n < |nodes| ==> PathTo(b, n) == PathTo(nodes, n)
    ensures PathTo(b, |nodes|) == PathTo(nodes, p) + [x]
  {
    var N := |nodes|;
    assert b[N] == Node(x, d, 1, p, map[]);
    assert forall n :: 0 <= n < N ==> b[n].item == nodes[n].item && b[n].parent == nodes[n].parent;
    assert Parented(b);
    forall q, y | 0 <= q < |b| && y in b[q].children ensures ChildOk(b, q, y) {
      if !(q == p && y == x) {
        assert b[q].children[y] == nodes[q].children[y];
        assert ChildOk(nodes, q, y);
      }
    }
    forall n | 0 < n < |b| ensures Registered(b, n) {
      if n < N {
        assert Registered(nodes, n);
        assert nodes[n].parent == p ==> nodes[n].item != x;
      }
    }
    forall n | 0 <= n < N ensures PathTo(b, n) == PathTo(nodes, n) {
      PathSame(nodes, b, n);
    }
  }

  /** The header after appending a node ends the node's chain with it. */
  lemma HeaderSnoc(nodes: seq<Node>, b: seq<Node>, e: Node)
    requires |nodes| > 0 && |b| == |nodes| + 1 && b[|nodes|] == e
    requires forall n :: 0 <= n < |nodes| ==> b[n].item == nodes[n].item
    ensures HeaderOf(b) == Appended(HeaderOf(nodes), e.item, |nodes|)
  {
    HeaderSameItems(b[..|nodes|], nodes);
  }

  /** Every chain of the header is a chain of its item. */
  lemma AllChains(nodes: seq<Node>)
    ensures forall x :: ChainFor(nodes, ChainOf(HeaderOf(nodes), x), x)
  {
    forall x ensures ChainFor(nodes, ChainOf(HeaderOf(nodes), x), x) {
      HeaderChain(nodes, x);
    }
  }

  lemma PathLength(nodes: seq<Node>, n: nat)
    requires Parented(nodes) && n < |nodes|
    ensures n > 0 <==> |PathTo(nodes, n)| > 0
  {
  }

  /** A node whose path extends p's by x is p's child for x. */
  lemma ExtendsChild(nodes: seq<Node>, p: nat, x: Item, m: nat)
    requires Parented(nodes) && Linked(nodes) && p < |nodes| && m < |nodes|
    requires PathTo(nodes, m) == PathTo(nodes, p) + [x]
    ensures x in nodes[p].children && nodes[p].children[x] == m
  {
    PathLength(nodes, m);
    var q := nodes[m].parent;
    assert PathTo(nodes, q) == PathTo(nodes, m)[..|PathTo(nodes, m)| - 1];
    PathInjective(nodes, q, p);
    assert Registered(nodes, m);
  }

  // ---------------------------------------------------------------------
  // Lemmas about the sums

  /** A chain summed after one node's weight grows by w. */
  lemma {:induction false} ProjSumBump(a: seq<Node>, b: seq<Node>, chain: seq<nat>, Y: seq<Item>, c: nat, w: int)
    requires Parented(a) && Parented(b) && |a| <= |b| && InRange(chain, |a|) && Increasing(chain) && c < |a|
    requires forall n :: 0 <= n < |a| ==> PrefixPath(a, n) == PrefixPath(b, n)
    requires forall n :: 0 <= n < |a| && n != c ==> b[n].twu == a[n].twu
    requires b[c].twu == a[c].twu + w
    ensures ProjSum(b, chain, Y) == ProjSum(a, chain, Y) + (if c in chain && Within(Y, PrefixPath(a, c)) then w else 0)
    decreases |chain|
  {
    if |chain| > 0 {
      var k := |chain| - 1;
      var init, last := chain[..k], chain[k];
      ChainInit(chain, |a|);
      ProjSumBump(a, b, init, Y, c, w);
      assert PrefixPath(b, last) == PrefixPath(a, last);
      var inY := Within(Y, PrefixPath(a, last));
      var wa := if inY then a[last].twu else 0;
      var wb := if inY then b[last].twu else 0;
      assert ProjSum(a, chain, Y) == ProjSum(a, init, Y) + wa;
      assert ProjSum(b, chain, Y) == ProjSum(b, init, Y) + wb;
      if c == last {
        assert ProjSum(b, init, Y) == ProjSum(a, init, Y);
        assert wb == wa + (if inY then w else 0);
      } else {
        assert wb == wa;
      }
    }
  }

  /** A nonempty increasing chain is its init, which keeps both properties,
      followed by a last node that the init does not hold. */
  lemma ChainInit(chain: seq<nat>, n: nat)
    requires |chain| > 0 && InRange(chain, n) && Increasing(chain)
    ensures var k := |chain| - 1; var init := chain[..k];
      && InRange(init, n) && Increasing(init) && chain == init + [chain[k]]
      && chain[k] !in init && forall x :: x in chain <==> x in init || x == chain[k]
  {
    var k := |chain| - 1;
    var init := chain[..k];
    assert chain == init + [chain[k]];
    forall i | 0 <= i < k ensures init[i] == chain[i] && init[i] != chain[k] {
    }
  }

  /** A chain summed over a grown arena in which its nodes are unchanged. */
  lemma {:induction false} ProjSumSame(a: seq<Node>, b: seq<Node>, chain: seq<nat>, Y: seq<Item>)
    requires Parented(a) && Parented(b) && |a| <= |b| && InRange(chain, |a|)
    requires forall n :: 0 <= n < |a| ==> PrefixPath(a, n) == PrefixPath(b, n) && b[n].twu == a[n].twu
    ensures ProjSum(b, chain, Y) == ProjSum(a, chain, Y)
    decreases |chain|
  {
    if |chain| > 0 {
      var k := |chain| - 1;
      assert InRange(chain[..k], |a|) by {
        forall i | 0 <= i < k ensures chain[..k][i] == chain[i] {
        }
      }
      ProjSumSame(a, b, chain[..k], Y);
    }
  }

  lemma PosTwSnoc(t: seq<Item>, w: seq<int>, k: nat, x: Item, Y: seq<Item>)
    requires |t| == |w| && k < |t|
    ensures PosTw(t[..k + 1], w[..k + 1], x, Y)
      == PosTw(t[..k], w[..k], x, Y) + (if t[k] == x && Within(Y, t[..k]) then w[k] else 0)
  {
    assert t[..k + 1][..k] == t[..k] && w[..k + 1][..k] == w[..k];
  }

  lemma PathTwSnoc(ins: seq<Inserted>, e: Inserted, x: Item, Y: seq<Item>)
    requires AllAligned(ins) && |e.path| == |e.weights|
    ensures AllAligned(ins + [e])
    ensures PathTw(ins + [e], x, Y) == PathTw(ins, x, Y) + PosTw(e.path, e.weights, x, Y)
  {
    assert (ins + [e])[..|ins|] == ins;
  }

  // ---------------------------------------------------------------------
  // One insertion, step by step: the walk from the root along t, which
  // increments the child for the next item when it exists and creates it
  // otherwise.

  ghost predicate SumsAt(nodes: seq<Node>, header: map<Item, seq<nat>>, ins: seq<Inserted>, t: seq<Item>, w: seq<int>, k: nat)
    requires Shape(nodes, header) && AllAligned(ins) && |t| == |w| && k <= |t|
  {
    forall x, Y :: HeaderChain(nodes, x);
      ProjSum(nodes, ChainOf(header, x), Y) == PathTw(ins, x, Y) + PosTw(t[..k], w[..k], x, Y)
  }

  ghost predicate ReachAt(nodes: seq<Node>, ins: seq<Inserted>, t: seq<Item>)
    requires Parented(nodes)
  {
    forall n :: 0 < n < |nodes| ==>
      (exists j :: 0 <= j < |ins| && IsPrefix(PathTo(nodes, n), ins[j].path)) || IsPrefix(PathTo(nodes, n), t)
  }

  /** The walk has consumed t[..k] and stands at cur. */
  predicate At(nodes: seq<Node>, header: map<Item, seq<nat>>, t: seq<Item>, w: seq<int>, k: nat, cur: nat) {
    && Shape(nodes, header) && |t| == |w| && k <= |t|
    && cur < |nodes| && PathTo(nodes, cur) == t[..k]
  }

  /** ... and the tree holds ins followed by the part of t consumed. */
  ghost predicate Walked(nodes: seq<Node>, header: map<Item, seq<nat>>, ins: seq<Inserted>, t: seq<Item>, w: seq<int>, k: nat, cur: nat) {
    && At(nodes, header, t, w, k, cur) && AllAligned(ins)
    && SumsAt(nodes, header, ins, t, w, k) && ReachAt(nodes, ins, t)
    && RootKids(nodes, ins) && (k > 0 ==> t[0] in nodes[0].children)
  }

  /** The weight a node of path q gains from inserting s with weights w. */
  function Gain(q: seq<Item>, s: seq<Item>, w: seq<int>): int
    requires |s| <= |w|
  {
    if 0 < |q| && IsPrefix(q, s) then w[|q| - 1] else 0
  }

  /** b is a after inserting s with weights w: every old node on s gains its
      depth's weight and one count, the others are unchanged, and the new
      nodes lie on s, carry their depth's weight and count 1, and repeat no
      old node's path. */
  ghost predicate Grown(a: seq<Node>, b: seq<Node>, s: seq<Item>, w: seq<int>)
    requires Parented(a) && Parented(b) && |s| <= |w|
  {
    Kept(a, b) && OldGrown(a, b, s, w) && NewGrown(a, b, s, w)
  }

  predicate Kept(a: seq<Node>, b: seq<Node>) {
    && |a| <= |b|
    && forall n :: 0 <= n < |a| ==> b[n].item == a[n].item && b[n].parent == a[n].parent
  }

  ghost predicate OldGrown(a: seq<Node>, b: seq<Node>, s: seq<Item>, w: seq<int>)
    requires Parented(a) && |a| <= |b| && |s| <= |w|
  {
    forall n :: 0 < n < |a| ==>
      && b[n].twu == a[n].twu + Gain(PathTo(a, n), s, w)
      && b[n].tf == a[n].tf + (if IsPrefix(PathTo(a, n), s) then 1 else 0)
  }

  ghost predicate NewGrown(a: seq<Node>, b: seq<Node>, s: seq<Item>, w: seq<int>)
    requires Parented(a) && Parented(b) && |a| <= |b| && |s| <= |w|
  {
    forall n :: |a| <= n < |b| ==>
      && IsPrefix(PathTo(b, n), s) && 0 < |PathTo(b, n)|
      && b[n].twu == w[|PathTo(b, n)| - 1] && b[n].tf == 1
      && forall m :: 0 <= m < |a| ==> PathTo(a, m) != PathTo(b, n)
  }

  lemma WalkStart(nodes: seq<Node>, header: map<Item, seq<nat>>, ins: seq<Inserted>, t: seq<Item>, w: seq<int>)
    requires Holds(nodes, header, ins) && |t| == |w|
    ensures Walked(nodes, header, ins, t, w, 0, 0)
    ensures Grown(nodes, nodes, t[..0], w)
  {
    assert t[..0] == [] && w[..0] == [];
  }

  lemma IncrementShape(nodes: seq<Node>, header: map<Item, seq<nat>>, c: nat, d: int, b: seq<Node>)
    requires Shape(nodes, header) && 0 < c < |nodes|
    requires b == nodes[c := nodes[c].(twu := nodes[c].twu + d, tf := nodes[c].tf + 1)]
    ensures Shape(b, header)
    ensures forall n :: 0 <= n < |nodes| ==> PathTo(b, n) == PathTo(nodes, n)
  {
    SameStructure(nodes, b);
  }

  /** The child of the walk's node for the next item. */
  predicate NextChild(nodes: seq<Node>, cur: nat, x: Item, c: nat) {
    cur < |nodes| && x in nodes[cur].children && c == nodes[cur].children[x] && 0 < c < |nodes|
  }

  /** `increment_vals`: one more count and d more weight at node c. */
  function Bumped(nodes: seq<Node>, c: nat, d: int): seq<Node>
    requires c < |nodes|
  {
    nodes[c := nodes[c].(twu := nodes[c].twu + d, tf := nodes[c].tf + 1)]
  }

  /** A new child for x under p, of weight d and count 1. */
  function Sprouted(nodes: seq<Node>, p: nat, x: Item, d: int): seq<Node>
    requires p < |nodes|
  {
    nodes[p := nodes[p].(children := nodes[p].children[x := |nodes|])] + [Node(x, d, 1, p, map[])]
  }

  lemma ChildExists(nodes: seq<Node>, header: map<Item, seq<nat>>, cur: nat, x: Item)
    requires Shape(nodes, header) && cur < |nodes| && x in nodes[cur].children
    ensures NextChild(nodes, cur, x, nodes[cur].children[x])
  {
    assert ChildOk(nodes, cur, x);
  }

  lemma WalkIncrement(nodes: seq<Node>, header: map<Item, seq<nat>>, ins: seq<Inserted>, t: seq<Item>, w: seq<int>, k: nat, cur: nat, c: nat)
    requires Walked(nodes, header, ins, t, w, k, cur) && k < |t| && NextChild(nodes, cur, t[k], c)
    ensures Walked(Bumped(nodes, c, w[k]), header, ins, t, w, k + 1, c)
  {
    var b := Bumped(nodes, c, w[k]);
    assert ChildOk(nodes, cur, t[k]);
    assert PathTo(nodes, c) == t[..k + 1] by {
      assert t[..k + 1] == t[..k] + [t[k]];
    }
    IncrementShape(nodes, header, c, w[k], b);
    AllChains(nodes);
    forall x, Y ensures ProjSum(b, ChainOf(header, x), Y) == PathTw(ins, x, Y) + PosTw(t[..k + 1], w[..k + 1], x, Y) {
      HeaderChain(nodes, x);
      var ch := ChainOf(header, x);
      assert c in ch <==> x == t[k];
      ProjSumBump(nodes, b, ch, Y, c, w[k]);
      PosTwSnoc(t, w, k, x, Y);
    }
    if k == 0 {
      PathLength(nodes, cur);
    }
  }

  lemma CreateShape(nodes: seq<Node>, header: map<Item, seq<nat>>, cur: nat, x: Item, d: int)
    requires Shape(nodes, header) && cur < |nodes| && x !in nodes[cur].children
    ensures Shape(Sprouted(nodes, cur, x, d), Appended(header, x, |nodes|))
    ensures forall n :: 0 <= n < |nodes| ==>
      PathTo(Sprouted(nodes, cur, x, d), n) == PathTo(nodes, n) && Sprouted(nodes, cur, x, d)[n].twu == nodes[n].twu
    ensures forall n :: 0 <= n < |nodes| ==> PrefixPath(Sprouted(nodes, cur, x, d), n) == PrefixPath(nodes, n)
    ensures PathTo(Sprouted(nodes, cur, x, d), |nodes|) == PathTo(nodes, cur) + [x]
  {
    var b := Sprouted(nodes, cur, x, d);
    CreateLinked(nodes, cur, x, d, b);
    HeaderSnoc(nodes, b, Node(x, d, 1, cur, map[]));
  }

  /** A chain summed after its item gained the new last node N. */
  lemma ChainSnocSum(nodes: seq<Node>, b: seq<Node>, ch: seq<nat>, ch': seq<nat>, Y: seq<Item>, grows: bool, pre: seq<Item>)
    requires Parented(nodes) && Parented(b) && |b| == |nodes| + 1 && InRange(ch, |nodes|)
    requires ch' == if grows then ch + [|nodes|] else ch
    requires ProjSum(b, ch, Y) == ProjSum(nodes, ch, Y) && PrefixPath(b, |nodes|) == pre
    ensures InRange(ch', |b|)
    ensures ProjSum(b, ch', Y) == ProjSum(nodes, ch, Y) + (if grows && Within(Y, pre) then b[|nodes|].twu else 0)
  {
    if grows {
      assert ch'[..|ch|] == ch;
    }
  }

  /** WalkCreate for one item and one itemset. */
  lemma CreateSumAt(nodes: seq<Node>, header: map<Item, seq<nat>>, ins: seq<Inserted>, t: seq<Item>, w: seq<int>, k: nat, cur: nat,
                    b: seq<Node>, h: map<Item, seq<nat>>, x: Item, Y: seq<Item>)
    requires Parented(nodes) && AllAligned(ins) && |t| == |w| && k < |t| && cur < |nodes|
    requires b == Sprouted(nodes, cur, t[k], w[k]) && h == Appended(header, t[k], |nodes|) && Parented(b)
    requires InRange(ChainOf(header, x), |nodes|)
    requires ProjSum(nodes, ChainOf(header, x), Y) == PathTw(ins, x, Y) + PosTw(t[..k], w[..k], x, Y)
    requires forall n :: 0 <= n < |nodes| ==> PrefixPath(b, n) == PrefixPath(nodes, n) && b[n].twu == nodes[n].twu
    requires PrefixPath(b, |nodes|) == t[..k]
    ensures InRange(ChainOf(h, x), |b|)
    ensures ProjSum(b, ChainOf(h, x), Y) == PathTw(ins, x, Y) + PosTw(t[..k + 1], w[..k + 1], x, Y)
  {
    var ch := ChainOf(header, x);
    ProjSumSame(nodes, b, ch, Y);
    PosTwSnoc(t, w, k, x, Y);
    assert b[|nodes|].twu == w[k];
    ChainSnocSum(nodes, b, ch, ChainOf(h, x), Y, x == t[k], t[..k]);
  }

  lemma WalkCreate(nodes: seq<Node>, header: map<Item, seq<nat>>, ins: seq<Inserted>, t: seq<Item>, w: seq<int>, k: nat, cur: nat)
    requires Walked(nodes, header, ins, t, w, k, cur) && k < |t| && t[k] !in nodes[cur].children
    ensures Walked(Sprouted(nodes, cur, t[k], w[k]), Appended(header, t[k], |nodes|), ins, t, w, k + 1, |nodes|)
  {
    var N := |nodes|;
    var b := Sprouted(nodes, cur, t[k], w[k]);
    CreateShape(nodes, header, cur, t[k], w[k]);
    TakeSnoc(t, k);
    CreateSums(nodes, header, ins, t, w, k, cur);
    CreateReach(nodes, header, ins, t, w, k, cur);
    if k == 0 {
      PathLength(nodes, cur);
    }
  }

  /** After the new child, every chain's projected sums count t[..k + 1]. */
  lemma CreateSums(nodes: seq<Node>, header: map<Item, seq<nat>>, ins: seq<Inserted>, t: seq<Item>, w: seq<int>, k: nat, cur: nat)
    requires Walked(nodes, header, ins, t, w, k, cur) && k < |t| && t[k] !in nodes[cur].children
    ensures Shape(Sprouted(nodes, cur, t[k], w[k]), Appended(header, t[k], |nodes|))
    ensures SumsAt(Sprouted(nodes, cur, t[k], w[k]), Appended(header, t[k], |nodes|), ins, t, w, k + 1)
  {
    var N := |nodes|;
    var b := Sprouted(nodes, cur, t[k], w[k]);
    var h := Appended(header, t[k], N);
    CreateShape(nodes, header, cur, t[k], w[k]);
    AllChains(b);
    forall x, Y ensures ProjSum(b, ChainOf(h, x), Y) == PathTw(ins, x, Y) + PosTw(t[..k + 1], w[..k + 1], x, Y) {
      HeaderChain(nodes, x);
      CreateSumFor(nodes, header, ins, t, w, k, cur, x, Y);
    }
  }

  /** The sums of one chain after the new child, from its sums before. */
  lemma CreateSumFor(nodes: seq<Node>, header: map<Item, seq<nat>>, ins: seq<Inserted>, t: seq<Item>, w: seq<int>, k: nat, cur: nat,
                     x: Item, Y: seq<Item>)
    requires At(nodes, header, t, w, k, cur) && AllAligned(ins) && k < |t| && t[k] !in nodes[cur].children
    requires InRange(ChainOf(header, x), |nodes|)
    requires ProjSum(nodes, ChainOf(header, x), Y) == PathTw(ins, x, Y) + PosTw(t[..k], w[..k], x, Y)
    ensures Parented(Sprouted(nodes, cur, t[k], w[k]))
    ensures InRange(ChainOf(Appended(header, t[k], |nodes|), x), |nodes| + 1)
    ensures ProjSum(Sprouted(nodes, cur, t[k], w[k]), ChainOf(Appended(header, t[k], |nodes|), x), Y)
      == PathTw(ins, x, Y) + PosTw(t[..k + 1], w[..k + 1], x, Y)
  {
    var b := Sprouted(nodes, cur, t[k], w[k]);
    var h := Appended(header, t[k], |nodes|);
    CreateShape(nodes, header, cur, t[k], w[k]);
    CreateSumAt(nodes, header, ins, t, w, k, cur, b, h, x, Y);
  }

  /** The new child's path t[..k + 1] is a prefix of t. */
  lemma CreateReach(nodes: seq<Node>, header: map<Item, seq<nat>>, ins: seq<Inserted>, t: seq<Item>, w: seq<int>, k: nat, cur: nat)
    requires Walked(nodes, header, ins, t, w, k, cur) && k < |t| && t[k] !in nodes[cur].children
    ensures Parented(Sprouted(nodes, cur, t[k], w[k]))
    ensures ReachAt(Sprouted(nodes, cur, t[k], w[k]), ins, t)
  {
    var N := |nodes|;
    var b := Sprouted(nodes, cur, t[k], w[k]);
    CreateShape(nodes, header, cur, t[k], w[k]);
    TakeSnoc(t, k);
    forall n | 0 < n < |b| ensures (exists j :: 0 <= j < |ins| && IsPrefix(PathTo(b, n), ins[j].path)) || IsPrefix(PathTo(b, n), t) {
      if n == N {
        assert t[..k + 1] == t[..|t[..k + 1]|];
      }
    }
  }

  lemma WalkEnd(nodes: seq<Node>, header: map<Item, seq<nat>>, ins: seq<Inserted>, t: seq<Item>, w: seq<int>, cur: nat)
    requires Walked(nodes, header, ins, t, w, |t|, cur)
    ensures Holds(nodes, header, ins + [Inserted(t, w)])
  {
    var e := Inserted(t, w);
    var ins' := ins + [e];
    assert t[..|t|] == t && w[..|w|] == w;
    AllChains(nodes);
    forall x, Y ensures ProjSum(nodes, ChainOf(header, x), Y) == PathTw(ins', x, Y) {
      PathTwSnoc(ins, e, x, Y);
    }
    forall n | 0 < n < |nodes| ensures exists j :: 0 <= j < |ins'| && IsPrefix(PathTo(nodes, n), ins'[j].path) {
      if exists j :: 0 <= j < |ins| && IsPrefix(PathTo(nodes, n), ins[j].path) {
        var j :| 0 <= j < |ins| && IsPrefix(PathTo(nodes, n), ins[j].path);
        assert ins'[j] == ins[j];
      } else {
        assert ins'[|ins|] == e;
      }
    }
    forall j | 0 <= j < |ins'| && |ins'[j].path| > 0 ensures ins'[j].path[0] in nodes[0].children {
      if j < |ins| {
        assert ins'[j] == ins[j];
      }
    }
  }

  /** A path is a prefix of s + [x] when it is one of s or is all of it. */
  lemma PrefixSnoc(s: seq<Item>, x: Item)
    ensures forall q: seq<Item> {:trigger IsPrefix(q, s + [x])} :: IsPrefix(q, s + [x]) <==> IsPrefix(q, s) || q == s + [x]
  {
    forall q: seq<Item> ensures IsPrefix(q, s + [x]) <==> IsPrefix(q, s) || q == s + [x] {
      if IsPrefix(q, s + [x]) && |q| <= |s| {
        assert s[..|q|] == (s + [x])[..|q|];
      }
      if IsPrefix(q, s) {
        assert (s + [x])[..|q|] == s[..|q|];
      }
    }
  }

  /** The old nodes after the step to s + [x]: the one whose path is
      s + [x] gains that depth's weight, the others nothing. */
  lemma StepOld(a: seq<Node>, nodes: seq<Node>, b: seq<Node>, s: seq<Item>, x: Item, w: seq<int>)
    requires Parented(a) && |a| <= |nodes| <= |b| && |s| < |w|
    requires OldGrown(a, nodes, s, w)
    requires forall n :: 0 < n < |a| ==> Parented(nodes) && PathTo(a, n) == PathTo(nodes, n)
    requires forall n :: 0 < n < |a| ==>
      && b[n].twu == nodes[n].twu + (if PathTo(a, n) == s + [x] then w[|s|] else 0)
      && b[n].tf == nodes[n].tf + (if PathTo(a, n) == s + [x] then 1 else 0)
    ensures OldGrown(a, b, s + [x], w)
  {
    PrefixSnoc(s, x);
  }

  /** The new nodes after the step to s + [x]; N, when given, is the node
      just created for s + [x]. */
  lemma StepNew(a: seq<Node>, nodes: seq<Node>, b: seq<Node>, s: seq<Item>, x: Item, w: seq<int>)
    requires Parented(a) && Parented(nodes) && Parented(b) && |a| <= |nodes| <= |b| <= |nodes| + 1 && |s| < |w|
    requires NewGrown(a, nodes, s, w)
    requires forall n :: |a| <= n < |nodes| ==>
      b[n].twu == nodes[n].twu && b[n].tf == nodes[n].tf && PathTo(b, n) == PathTo(nodes, n)
    requires forall n :: |nodes| <= n < |b| ==> PathTo(b, n) == s + [x] && b[n].twu == w[|s|] && b[n].tf == 1
    requires |b| == |nodes| + 1 ==> forall m :: 0 <= m < |a| ==> PathTo(a, m) != s + [x]
    ensures NewGrown(a, b, s + [x], w)
  {
    forall n | |a| <= n < |b|
      ensures IsPrefix(PathTo(b, n), s + [x]) && 0 < |PathTo(b, n)|
      ensures b[n].twu == w[|PathTo(b, n)| - 1] && b[n].tf == 1
      ensures forall m :: 0 <= m < |a| ==> PathTo(a, m) != PathTo(b, n)
    {
      if n < |nodes| {
        StepNewKept(a, nodes, b, s, x, w, n);
      } else {
        assert IsPrefix(s + [x], s + [x]);
      }
    }
  }

  /** StepNew for a node created before this step. */
  lemma StepNewKept(a: seq<Node>, nodes: seq<Node>, b: seq<Node>, s: seq<Item>, x: Item, w: seq<int>, n: nat)
    requires Parented(a) && Parented(nodes) && Parented(b) && |a| <= n < |nodes| <= |b| && |s| < |w|
    requires NewGrown(a, nodes, s, w)
    requires b[n].twu == nodes[n].twu && b[n].tf == nodes[n].tf && PathTo(b, n) == PathTo(nodes, n)
    ensures IsPrefix(PathTo(b, n), s + [x]) && 0 < |PathTo(b, n)|
    ensures b[n].twu == w[|PathTo(b, n)| - 1] && b[n].tf == 1
    ensures forall m :: 0 <= m < |a| ==> PathTo(a, m) != PathTo(b, n)
  {
    StepKeptAt(a, b[n], PathTo(b, n), nodes[n], PathTo(nodes, n), s, x, w);
  }

  /** A node of the previous step keeps its counters and its path, which
      is still a prefix of the longer s + [x]. */
  lemma StepKeptAt(a: seq<Node>, bn: Node, q: seq<Item>, nn: Node, p: seq<Item>, s: seq<Item>, x: Item, w: seq<int>)
    requires Parented(a) && |s| < |w|
    requires IsPrefix(p, s) && 0 < |p| && nn.twu == w[|p| - 1] && nn.tf == 1
    requires forall m :: 0 <= m < |a| ==> PathTo(a, m) != p
    requires bn.twu == nn.twu && bn.tf == nn.tf && q == p
    ensures IsPrefix(q, s + [x]) && 0 < |q|
    ensures bn.twu == w[|q| - 1] && bn.tf == 1
    ensures forall m :: 0 <= m < |a| ==> PathTo(a, m) != q
  {
    assert (s + [x])[..|p|] == s[..|p|];
  }

  /** Growth along t[..k+1] after incrementing the child for t[k]. */
  lemma GrownIncrement(a: seq<Node>, nodes: seq<Node>, t: seq<Item>, w: seq<int>, k: nat, cur: nat, c: nat)
    requires Parented(a) && Parented(nodes) && Linked(nodes) && |t| == |w| && k < |t|
    requires cur < |nodes| && PathTo(nodes, cur) == t[..k] && NextChild(nodes, cur, t[k], c)
    requires Grown(a, nodes, t[..k], w)
    ensures Parented(Bumped(nodes, c, w[k])) && Grown(a, Bumped(nodes, c, w[k]), t[..k + 1], w)
  {
    IncrementFacts(a, nodes, t, w, k, cur, c);
    IncrementOld(a, nodes, t, w, k, c);
    IncrementNew(a, nodes, t, w, k, c);
  }

  lemma TakeSnoc(t: seq<Item>, k: nat)
    requires k < |t|
    ensures t[..k + 1] == t[..k] + [t[k]]
  {
  }

  /** The old nodes after incrementing the child c for t[k]. */
  lemma IncrementOld(a: seq<Node>, nodes: seq<Node>, t: seq<Item>, w: seq<int>, k: nat, c: nat)
    requires Parented(a) && Parented(nodes) && |t| == |w| && k < |t| && c < |a| <= |nodes|
    requires OldGrown(a, nodes, t[..k], w)
    requires forall n :: 0 <= n < |a| ==> PathTo(a, n) == PathTo(nodes, n)
    requires forall n :: 0 < n < |a| ==> (PathTo(a, n) == t[..k] + [t[k]] <==> n == c)
    ensures OldGrown(a, Bumped(nodes, c, w[k]), t[..k + 1], w)
  {
    TakeSnoc(t, k);
    StepOld(a, nodes, Bumped(nodes, c, w[k]), t[..k], t[k], w);
  }

  /** The nodes added during this insertion, after incrementing the child
      c, which is an old node, for t[k]. */
  lemma IncrementNew(a: seq<Node>, nodes: seq<Node>, t: seq<Item>, w: seq<int>, k: nat, c: nat)
    requires Parented(a) && Parented(nodes) && |t| == |w| && k < |t| && c < |a| <= |nodes|
    requires NewGrown(a, nodes, t[..k], w) && Parented(Bumped(nodes, c, w[k]))
    requires forall n :: 0 <= n < |nodes| ==> PathTo(Bumped(nodes, c, w[k]), n) == PathTo(nodes, n)
    ensures NewGrown(a, Bumped(nodes, c, w[k]), t[..k + 1], w)
  {
    var b := Bumped(nodes, c, w[k]);
    assert |b| == |nodes|;
    forall n | |a| <= n < |nodes|
      ensures b[n].twu == nodes[n].twu && b[n].tf == nodes[n].tf && PathTo(b, n) == PathTo(nodes, n)
    {
      assert n != c && b[n] == nodes[n];
    }
    TakeSnoc(t, k);
    StepNew(a, nodes, b, t[..k], t[k], w);
  }

  /** Bumping a node's weight and count leaves the tree's structure alone. */
  lemma BumpedSame(nodes: seq<Node>, c: nat, d: int)
    requires Parented(nodes) && Linked(nodes) && c < |nodes|
    ensures Parented(Bumped(nodes, c, d)) && Linked(Bumped(nodes, c, d))
    ensures forall n :: 0 <= n < |nodes| ==> PathTo(Bumped(nodes, c, d), n) == PathTo(nodes, n)
  {
    SameStructure(nodes, Bumped(nodes, c, d));
  }

  /** What incrementing the child for t[k] changes, for GrownIncrement. */
  lemma IncrementFacts(a: seq<Node>, nodes: seq<Node>, t: seq<Item>, w: seq<int>, k: nat, cur: nat, c: nat)
    requires Parented(a) && Parented(nodes) && Linked(nodes) && |t| == |w| && k < |t|
    requires cur < |nodes| && PathTo(nodes, cur) == t[..k] && NextChild(nodes, cur, t[k], c)
    requires Kept(a, nodes) && |t[..k]| <= |w| && NewGrown(a, nodes, t[..k], w)
    ensures c < |a| && c < |nodes|
    ensures Parented(Bumped(nodes, c, w[k])) && Linked(Bumped(nodes, c, w[k]))
    ensures forall n :: 0 <= n < |nodes| ==> PathTo(Bumped(nodes, c, w[k]), n) == PathTo(nodes, n)
    ensures forall n :: 0 <= n < |a| ==> PathTo(a, n) == PathTo(nodes, n)
    ensures forall n :: 0 < n < |a| ==> (PathTo(a, n) == t[..k] + [t[k]] <==> n == c)
  {
    assert ChildOk(nodes, cur, t[k]);
    var s, s' := t[..k], t[..k + 1];
    TakeSnoc(t, k);
    assert PathTo(nodes, c) == s';
    BumpedSame(nodes, c, w[k]);
    forall n | 0 <= n < |a| ensures PathTo(a, n) == PathTo(nodes, n) {
      PathSame(a, nodes, n);
    }
    assert c < |a| by {
      assert |PathTo(nodes, c)| == k + 1;
    }
    forall n | 0 < n < |a| ensures PathTo(a, n) == s' <==> n == c {
      PathInjective(nodes, n, c);
    }
  }

  /** A node whose path extends p's by x exists only as p's child for x. */
  lemma ExtendsOnlyChild(nodes: seq<Node>, p: nat, x: Item, m: nat)
    requires Parented(nodes) && Linked(nodes) && p < |nodes| && m < |nodes|
    ensures PathTo(nodes, m) == PathTo(nodes, p) + [x] ==> x in nodes[p].children
  {
    if PathTo(nodes, m) == PathTo(nodes, p) + [x] {
      ExtendsChild(nodes, p, x, m);
    }
  }

  /** What creating the child for t[k] changes, for GrownCreate. */
  lemma CreateFacts(a: seq<Node>, nodes: seq<Node>, t: seq<Item>, w: seq<int>, k: nat, cur: nat)
    requires Parented(a) && Parented(nodes) && Linked(nodes) && |t| == |w| && k < |t| && Kept(a, nodes)
    requires cur < |nodes| && PathTo(nodes, cur) == t[..k] && t[k] !in nodes[cur].children
    ensures Parented(Sprouted(nodes, cur, t[k], w[k]))
    ensures forall n :: 0 <= n < |nodes| ==>
      && Sprouted(nodes, cur, t[k], w[k])[n].twu == nodes[n].twu && Sprouted(nodes, cur, t[k], w[k])[n].tf == nodes[n].tf
      && Sprouted(nodes, cur, t[k], w[k])[n].item == nodes[n].item && Sprouted(nodes, cur, t[k], w[k])[n].parent == nodes[n].parent
      && PathTo(Sprouted(nodes, cur, t[k], w[k]), n) == PathTo(nodes, n) && PathTo(nodes, n) != t[..k] + [t[k]]
    ensures forall n :: 0 <= n < |a| ==> PathTo(a, n) == PathTo(nodes, n)
    ensures PathTo(Sprouted(nodes, cur, t[k], w[k]), |nodes|) == t[..k] + [t[k]]
    ensures Sprouted(nodes, cur, t[k], w[k])[|nodes|].twu == w[k] && Sprouted(nodes, cur, t[k], w[k])[|nodes|].tf == 1
  {
    var b := Sprouted(nodes, cur, t[k], w[k]);
    CreateLinked(nodes, cur, t[k], w[k], b);
    forall n | 0 <= n < |a| ensures PathTo(a, n) == PathTo(nodes, n) {
      PathSame(a, nodes, n);
    }
    forall m | 0 <= m < |nodes| ensures PathTo(nodes, m) != t[..k] + [t[k]] {
      ExtendsOnlyChild(nodes, cur, t[k], m);
    }
  }

  /** Growth along t[..k+1] after creating the child for t[k]. */
  lemma GrownCreate(a: seq<Node>, nodes: seq<Node>, t: seq<Item>, w: seq<int>, k: nat, cur: nat)
    requires Parented(a) && Parented(nodes) && Linked(nodes) && |t| == |w| && k < |t|
    requires cur < |nodes| && PathTo(nodes, cur) == t[..k] && t[k] !in nodes[cur].children
    requires Grown(a, nodes, t[..k], w)
    ensures Parented(Sprouted(nodes, cur, t[k], w[k])) && Grown(a, Sprouted(nodes, cur, t[k], w[k]), t[..k + 1], w)
  {
    var b := Sprouted(nodes, cur, t[k], w[k]);
    var s := t[..k];
    TakeSnoc(t, k);
    CreateFacts(a, nodes, t, w, k, cur);
    StepOld(a, nodes, b, s, t[k], w);
    forall n | |nodes| <= n < |b| ensures PathTo(b, n) == s + [t[k]] && b[n].twu == w[|s|] && b[n].tf == 1 {
      assert n == |nodes|;
    }
    StepNew(a, nodes, b, s, t[k], w);
  }

  // ---------------------------------------------------------------------
  // A node's twu bounds its children's

  /** The twu of p's children among the nodes before n. */
  function ChildTw(nodes: seq<Node>, p: nat, n: nat): int
    requires n <= |nodes|
  {
    if n <= 1 then 0 else ChildTw(nodes, p, n - 1) + (if nodes[n - 1].parent == p then nodes[n - 1].twu else 0)
  }

  /** Every node other than the root carries at least its children's twu
      together. */
  predicate ChildBound(nodes: seq<Node>) {
    forall p :: 0 < p < |nodes| ==> ChildTw(nodes, p, |nodes|) <= nodes[p].twu
  }

  predicate NodesNonneg(nodes: seq<Node>) {
    forall n :: 0 <= n < |nodes| ==> nodes[n].twu >= 0
  }

  /** Some child of p before n lies on s. */
  ghost predicate HitBelow(b: seq<Node>, p: nat, s: seq<Item>, n: nat)
    requires Parented(b) && n <= |b|
  {
    exists m :: 0 < m < n && b[m].parent == p && IsPrefix(PathTo(b, m), s)
  }

  /** At most one child of a node lies on an inserted path. */
  lemma OnlyHit(b: seq<Node>, p: nat, s: seq<Item>, m: nat, m': nat)
    requires Parented(b) && Linked(b) && 0 < m < |b| && 0 < m' < |b|
    requires b[m].parent == p && b[m'].parent == p && IsPrefix(PathTo(b, m), s)
    ensures IsPrefix(PathTo(b, m'), s) ==> m' == m
  {
    if IsPrefix(PathTo(b, m'), s) {
      var P := PathTo(b, p);
      assert |PathTo(b, m)| == |P| + 1 == |PathTo(b, m')|;
      assert PathTo(b, m) == s[..|P| + 1] == PathTo(b, m');
      PathInjective(b, m, m');
    }
  }

  /** A node with no children yet. */
  lemma {:induction false} ChildTwNone(a: seq<Node>, p: nat, n: nat)
    requires Parented(a) && n <= |a| <= p
    ensures ChildTw(a, p, n) == 0
  {
    if n > 1 {
      ChildTwNone(a, p, n - 1);
    }
  }

  /** A node's twu after inserting s with the weight u at every depth. */
  lemma GrownTwu(a: seq<Node>, b: seq<Node>, s: seq<Item>, w: seq<int>, u: int, m: nat)
    requires Parented(a) && Parented(b) && |s| <= |w| && Grown(a, b, s, w)
    requires (forall i :: 0 <= i < |w| ==> w[i] == u) && 0 < m < |b|
    ensures m < |a| ==> b[m].parent == a[m].parent
    ensures m < |a| ==> b[m].twu == a[m].twu + (if IsPrefix(PathTo(b, m), s) then u else 0)
    ensures m >= |a| ==> b[m].twu == u && IsPrefix(PathTo(b, m), s)
  {
    if m < |a| {
      PathSame(a, b, m);
      PathLength(a, m);
      assert b[m].twu == a[m].twu + Gain(PathTo(a, m), s, w);
    }
  }

  /** The first child of p on s is the only one. */
  lemma FirstHit(b: seq<Node>, p: nat, s: seq<Item>, m: nat)
    requires Parented(b) && Linked(b) && 0 < m < |b|
    requires b[m].parent == p && IsPrefix(PathTo(b, m), s)
    ensures !HitBelow(b, p, s, m) && HitBelow(b, p, s, m + 1)
  {
    forall m' | 0 < m' < m && b[m'].parent == p ensures !IsPrefix(PathTo(b, m'), s) {
      OnlyHit(b, p, s, m, m');
    }
  }

  /** Inserting s with the weight u at every depth adds to p's children
      at most u, and only when one of them lies on s. */
  lemma {:induction false} ChildTwGrown(a: seq<Node>, b: seq<Node>, s: seq<Item>, w: seq<int>, u: int, p: nat, n: nat)
    requires Parented(a) && Parented(b) && Linked(b) && |s| <= |w| && Grown(a, b, s, w)
    requires (forall i :: 0 <= i < |w| ==> w[i] == u) && u >= 0 && n <= |b|
    ensures ChildTw(b, p, n) <= ChildTw(a, p, Min(n, |a|)) + (if HitBelow(b, p, s, n) then u else 0)
  {
    if n > 1 {
      ChildTwGrown(a, b, s, w, u, p, n - 1);
      var m := n - 1;
      assert HitBelow(b, p, s, m) ==> HitBelow(b, p, s, n);
      if b[m].parent == p && IsPrefix(PathTo(b, m), s) {
        FirstHit(b, p, s, m);
      }
      GrownTwu(a, b, s, w, u, m);
    }
  }

  /** A child of p on s puts p on s. */
  lemma HitParent(b: seq<Node>, p: nat, s: seq<Item>)
    requires Parented(b) && 0 < p < |b| && HitBelow(b, p, s, |b|)
    ensures IsPrefix(PathTo(b, p), s)
  {
    var m :| 0 < m < |b| && b[m].parent == p && IsPrefix(PathTo(b, m), s);
    assert PathTo(b, m) == PathTo(b, p) + [b[m].item];
  }

  /** Inserting with one nonnegative weight keeps every node at or above
      its children's twu. */
  lemma GrownBound(a: seq<Node>, b: seq<Node>, s: seq<Item>, w: seq<int>, u: int)
    requires Parented(a) && Parented(b) && Linked(b) && |s| <= |w| && Grown(a, b, s, w)
    requires (forall i :: 0 <= i < |w| ==> w[i] == u) && u >= 0 && ChildBound(a)
    ensures ChildBound(b)
  {
    forall p | 0 < p < |b| ensures ChildTw(b, p, |b|) <= b[p].twu {
      ChildTwGrown(a, b, s, w, u, p, |b|);
      if HitBelow(b, p, s, |b|) {
        HitParent(b, p, s);
      }
      GrownTwu(a, b, s, w, u, p);
      if p >= |a| {
        ChildTwNone(a, p, |a|);
      }
    }
  }
}
