/** What an IHUP tree holds, in terms of the database: every inserted path
    is an increasing item tuple carrying one utility at every depth, and
    under a mining prefix P the paths holding an itemset Y sum to the TWU of
    Y together with P. Projection on an item x keeps that relation for the
    prefix P + [x], which is what makes the chain sums of get_candidates the
    TWUs of the candidates. */
module ExpIhupTheory {
  import opened Db
  import opened Ordering
  import opened PrefixTree
  import A = Apriori

  /** A weight for every depth of a path of length n, all equal to u:
      `insert_transaction(transaction, transaction_utility)` adds the same
      utility at every node it walks. */
  function Uniform(n: nat, u: int): (r: seq<int>)
    ensures |r| == n && forall k :: 0 <= k < n ==> r[k] == u
  {
    seq(n, _ => u)
  }

  /** The utility an inserted path carries. */
  function Weight(e: Inserted): int {
    if |e.weights| > 0 then e.weights[0] else 0
  }

  /** Over the inserted paths holding every item of Y, the sum of their
      utilities. */
  function Tw(ins: seq<Inserted>, Y: seq<Item>): int
    decreases |ins|
  {
    if |ins| == 0 then 0
    else Tw(ins[..|ins| - 1], Y) + (if Within(Y, ins[|ins| - 1].path) then Weight(ins[|ins| - 1]) else 0)
  }

  /** Every item of Y is smaller than every item of P. */
  predicate BelowAll(Y: seq<Item>, P: seq<Item>) {
    forall y, p :: y in Y && p in P ==> y < p
  }

  /** A mining prefix: each item smaller than the ones before it. */
  predicate Descending(P: seq<Item>) {
    forall i, j :: 0 <= i < j < |P| ==> P[i] > P[j]
  }

  /** Increasing paths of uniform utility, below the prefix. */
  predicate PathsOk(ins: seq<Inserted>, P: seq<Item>) {
    forall k :: 0 <= k < |ins| ==>
      && A.Increasing(ins[k].path) && BelowAll(ins[k].path, P)
      && ins[k].weights == Uniform(|ins[k].path|, Weight(ins[k]))
  }

  /** The tree of the prefix P: its paths are the conditional database of P. */
  ghost predicate Rel(ins: seq<Inserted>, db: seq<Txn>, P: seq<Item>) {
    && Descending(P) && PathsOk(ins, P)
    && forall Y :: |Y| > 0 && BelowAll(Y, P) ==> Tw(ins, Y) == TWU(Y + P, db)
  }

  /** The longest inserted path. */
  function Height(ins: seq<Inserted>): (h: nat)
    ensures forall k :: 0 <= k < |ins| ==> |ins[k].path| <= h
    ensures |ins| > 0 ==> exists k :: 0 <= k < |ins| && |ins[k].path| == h
    decreases |ins|
  {
    if |ins| == 0 then 0
    else
      var h0 := Height(ins[..|ins| - 1]);
      assert forall k :: 0 <= k < |ins| - 1 ==> ins[..|ins| - 1][k] == ins[k];
      if |ins[|ins| - 1].path| > h0 then |ins[|ins| - 1].path| else h0
  }

  /** `get_projected_tree(full_tree, item)`: what the walk over the item's
      chain inserts, one prefix path per node whose prefix path is not empty,
      with the node's utility. */
  function ProjPaths(nodes: seq<Node>, chain: seq<nat>): seq<Inserted>
    requires Parented(nodes) && InRange(chain, |nodes|)
    decreases |chain|
  {
    if |chain| == 0 then []
    else
      var c := chain[|chain| - 1];
      var pre := PrefixPath(nodes, c);
      ProjPaths(nodes, chain[..|chain| - 1])
        + (if |pre| > 0 then [Inserted(pre, Uniform(|pre|, nodes[c].twu))] else [])
  }

  // ---------------------------------------------------------------------
  // Candidate keys

  function ItemKey(): Item -> (int, int) {
    (x: Item) => (x, 0)
  }

  /** `tuple(sorted(new_cand, key=int))`. */
  function SortedItems(s: seq<Item>): (r: seq<Item>)
    ensures multiset(r) == multiset(s)
    ensures Sorted(r)
  {
    var r := SortBy(s, ItemKey());
    assert forall i, j :: 0 <= i < j < |r| ==> KeyLe(ItemKey()(r[i]), ItemKey()(r[j]));
    r
  }

  /** A recorded candidate: a nonempty increasing tuple whose value is its
      TWU, at least the threshold. */
  predicate Good(K: seq<Item>, v: int, db: seq<Txn>, minUtil: int) {
    |K| > 0 && A.Increasing(K) && v == TWU(K, db) && v >= minUtil
  }

  predicate AllGood(cands: map<seq<Item>, int>, db: seq<Txn>, minUtil: int) {
    forall K :: K in cands ==> Good(K, cands[K], db, minUtil)
  }

  /** Recording a good candidate keeps every candidate good. */
  lemma AllGoodUpdate(cands: map<seq<Item>, int>, K: seq<Item>, v: int, db: seq<Txn>, minUtil: int)
    requires AllGood(cands, db, minUtil) && Good(K, v, db, minUtil)
    ensures AllGood(cands[K := v], db, minUtil)
  {
  }

  /** What mining under P must find: a nonempty increasing Z below P whose
      union with P reaches the threshold in TWU. */
  predicate Wanted(Z: seq<Item>, P: seq<Item>, db: seq<Txn>, minUtil: int) {
    |Z| > 0 && A.Increasing(Z) && BelowAll(Z, P) && TWU(Z + P, db) >= minUtil
  }

  // ---------------------------------------------------------------------
  // Lemmas

  predicate Sorted(a: seq<Item>) {
    forall i, j :: 0 <= i < j < |a| ==> a[i] <= a[j]
  }

  /** The tail of a sorted sequence, its head removed from its elements. */
  lemma SortedTail(a: seq<Item>)
    requires Sorted(a) && |a| > 0
    ensures Sorted(a[1..]) && multiset(a[1..]) == multiset(a) - multiset{a[0]}
    ensures forall x :: x in multiset(a) ==> a[0] <= x
  {
    assert a == [a[0]] + a[1..];
    forall i, j | 0 <= i < j < |a[1..]| ensures a[1..][i] <= a[1..][j] {
      assert a[1..][i] == a[i + 1] && a[1..][j] == a[j + 1];
    }
  }

  lemma SameHead(a: seq<Item>, b: seq<Item>)
    requires Sorted(a) && Sorted(b) && multiset(a) == multiset(b) && |a| > 0 && |b| > 0
    ensures a[0] == b[0]
  {
    SortedTail(a);
    SortedTail(b);
    assert a[0] in multiset(a) && b[0] in multiset(b);
  }

  /** Two sorted sequences with the same elements are equal. */
  lemma {:induction false} SortedUnique(a: seq<Item>, b: seq<Item>)
    requires Sorted(a) && Sorted(b) && multiset(a) == multiset(b)
    ensures a == b
    decreases |a|
  {
    assert |multiset(a)| == |a| && |multiset(b)| == |b|;
    if |a| > 0 {
      SameHead(a, b);
      SortedTail(a);
      SortedTail(b);
      SortedUnique(a[1..], b[1..]);
      assert a == [a[0]] + a[1..] && b == [b[0]] + b[1..];
    }
  }

  /** The key of a candidate depends only on which items it has. */
  lemma SortedItemsPerm(s: seq<Item>, t: seq<Item>)
    requires multiset(s) == multiset(t)
    ensures SortedItems(s) == SortedItems(t)
  {
    SortedUnique(SortedItems(s), SortedItems(t));
  }

  /** A set of items without members is empty. */
  lemma NoneIsEmpty(S: set<Item>)
    ensures (forall y :: y !in S) ==> S == {}
  {
    if forall y :: y !in S {
      assert forall y :: y in S <==> y in {};
    }
  }

  /** A nonempty set of items has a member to pick. */
  lemma SomeItem(S: set<Item>)
    requires S != {}
    ensures exists y :: y in S
  {
    NoneIsEmpty(S);
  }

  /** The key has the items of the candidate. */
  lemma SortedItemsSame(s: seq<Item>)
    ensures forall x :: x in SortedItems(s) <==> x in s
  {
    var r := SortedItems(s);
    forall x ensures x in r <==> x in s {
      assert x in r <==> x in multiset(r);
      assert x in s <==> x in multiset(s);
    }
  }

  /** An increasing tuple is its own key. */
  lemma SortedItemsId(s: seq<Item>)
    requires A.Increasing(s)
    ensures SortedItems(s) == s
  {
    assert Sorted(s);
    SortedUnique(SortedItems(s), s);
  }

  /** The key of distinct items is increasing. */
  lemma SortedItemsDistinct(s: seq<Item>)
    requires Distinct(s)
    ensures A.Increasing(SortedItems(s))
  {
    var r := SortedItems(s);
    forall i, j | 0 <= i < j < |r| ensures r[i] < r[j] {
      Repeats(r, i, j);
      DistinctCount(s, r[i]);
    }
  }

  lemma Repeats(s: seq<Item>, i: nat, j: nat)
    requires i < j < |s|
    ensures s[i] == s[j] ==> multiset(s)[s[i]] >= 2
  {
    if s[i] == s[j] {
      RepeatCount(s, i, j);
    }
  }

  /** TWU depends only on which items an itemset has. */
  lemma {:induction false} TwuSameItems(X: seq<Item>, X': seq<Item>, db: seq<Txn>)
    requires forall x :: x in X <==> x in X'
    ensures TWU(X, db) == TWU(X', db)
    decreases |db|
  {
    if |db| > 0 {
      TwuSameItems(X, X', db[..|db| - 1]);
    }
  }

  lemma TwSnoc(ins: seq<Inserted>, e: Inserted, Y: seq<Item>)
    ensures Tw(ins + [e], Y) == Tw(ins, Y) + (if Within(Y, e.path) then Weight(e) else 0)
  {
    assert (ins + [e])[..|ins|] == ins;
  }

  /** In an increasing path of uniform weight u, the positions of x
      preceded by every item of Y (all smaller than x) weigh u exactly when
      the path holds x and Y. */
  lemma {:induction false} PosTwIncreasing(t: seq<Item>, w: seq<int>, u: int, x: Item, Y: seq<Item>)
    requires |t| == |w| && A.Increasing(t) && (forall k :: 0 <= k < |w| ==> w[k] == u)
    requires forall y :: y in Y ==> y < x
    ensures PosTw(t, w, x, Y) == if x in t && Within(Y, t) then u else 0
    decreases |t|
  {
    if |t| > 0 {
      var k := |t| - 1;
      var s := t[..k];
      assert A.Increasing(s);
      PosTwIncreasing(s, w[..k], u, x, Y);
      assert t == s + [t[k]];
      assert forall e :: e in s ==> e < t[k];
    }
  }

  /** Summed over increasing uniform paths, the positions of x preceded by
      Y are the paths holding Y and x. */
  lemma {:induction false} PathTwIsTw(ins: seq<Inserted>, P: seq<Item>, x: Item, Y: seq<Item>)
    requires AllAligned(ins) && PathsOk(ins, P)
    requires forall y :: y in Y ==> y < x
    ensures PathTw(ins, x, Y) == Tw(ins, Y + [x])
    decreases |ins|
  {
    if |ins| > 0 {
      var k := |ins| - 1;
      var e := ins[k];
      assert ins == ins[..k] + [e];
      assert AllAligned(ins[..k]) && PathsOk(ins[..k], P) by {
        forall j | 0 <= j < k ensures ins[..k][j] == ins[j] {
        }
      }
      PathTwIsTw(ins[..k], P, x, Y);
      PathTwSnoc(ins[..k], e, x, Y);
      TwSnoc(ins[..k], e, Y + [x]);
      PosTwIncreasing(e.path, e.weights, Weight(e), x, Y);
      assert Within(Y + [x], e.path) <==> x in e.path && Within(Y, e.path);
    }
  }

  /** The paths a projection inserts, summed over an itemset, are the
      chain's nodes whose prefix paths hold it. */
  lemma {:induction false} ProjTw(nodes: seq<Node>, chain: seq<nat>, Y: seq<Item>)
    requires Parented(nodes) && InRange(chain, |nodes|) && |Y| > 0
    ensures Tw(ProjPaths(nodes, chain), Y) == ProjSum(nodes, chain, Y)
    decreases |chain|
  {
    if |chain| > 0 {
      var k := |chain| - 1;
      assert InRange(chain[..k], |nodes|) by {
        forall i | 0 <= i < k ensures chain[..k][i] == chain[i] {
        }
      }
      ProjTw(nodes, chain[..k], Y);
      ProjTwStep(ProjPaths(nodes, chain[..k]), PrefixPath(nodes, chain[k]), nodes[chain[k]].twu, Y);
    }
  }

  lemma ProjTwStep(r0: seq<Inserted>, pre: seq<Item>, u: int, Y: seq<Item>)
    requires |Y| > 0
    ensures Tw(r0 + (if |pre| > 0 then [Inserted(pre, Uniform(|pre|, u))] else []), Y)
      == Tw(r0, Y) + (if Within(Y, pre) then u else 0)
  {
    if |pre| > 0 {
      TwSnoc(r0, Inserted(pre, Uniform(|pre|, u)), Y);
    } else {
      var y := Y[0];
      assert y in Y;
      var e: seq<Inserted> := [];
      assert r0 + e == r0;
    }
  }

  /** One more chain node for the projection. */
  lemma ProjPathsStep(nodes: seq<Node>, chain: seq<nat>, j: nat)
    requires Parented(nodes) && InRange(chain, |nodes|) && j < |chain|
    ensures InRange(chain[..j], |nodes|) && InRange(chain[..j + 1], |nodes|)
    ensures var pre := PrefixPath(nodes, chain[j]);
      ProjPaths(nodes, chain[..j + 1])
      == ProjPaths(nodes, chain[..j]) + (if |pre| > 0 then [Inserted(pre, Uniform(|pre|, nodes[chain[j]].twu))] else [])
  {
    assert forall i :: 0 <= i < j ==> chain[..j][i] == chain[i];
    assert forall i :: 0 <= i <= j ==> chain[..j + 1][i] == chain[i];
    assert chain[..j + 1][..j] == chain[..j];
  }

  /** One more chain node in the full chain sum. */
  lemma ProjSumStep(nodes: seq<Node>, chain: seq<nat>, j: nat)
    requires Parented(nodes) && InRange(chain, |nodes|) && j < |chain|
    ensures InRange(chain[..j], |nodes|) && InRange(chain[..j + 1], |nodes|)
    ensures ProjSum(nodes, chain[..j + 1], []) == ProjSum(nodes, chain[..j], []) + nodes[chain[j]].twu
  {
    assert forall i :: 0 <= i < j ==> chain[..j][i] == chain[i];
    assert forall i :: 0 <= i <= j ==> chain[..j + 1][i] == chain[i];
    assert chain[..j + 1][..j] == chain[..j];
  }

  /** e is what the projection inserts for some node of the chain. */
  predicate FromChain(nodes: seq<Node>, chain: seq<nat>, e: Inserted)
    requires Parented(nodes) && InRange(chain, |nodes|)
  {
    exists i :: 0 <= i < |chain| && FromNode(nodes, chain[i], e)
  }

  predicate FromNode(nodes: seq<Node>, c: nat, e: Inserted)
    requires Parented(nodes) && c < |nodes|
  {
    0 < |PrefixPath(nodes, c)| && e == Inserted(PrefixPath(nodes, c), Uniform(|PrefixPath(nodes, c)|, nodes[c].twu))
  }

  /** Each projected path is the nonempty prefix path of a chain node. */
  lemma {:induction false} ProjPathsFrom(nodes: seq<Node>, chain: seq<nat>)
    requires Parented(nodes) && InRange(chain, |nodes|)
    ensures forall k :: 0 <= k < |ProjPaths(nodes, chain)| ==> FromChain(nodes, chain, ProjPaths(nodes, chain)[k])
    decreases |chain|
  {
    if |chain| > 0 {
      var m := |chain| - 1;
      var init := chain[..m];
      assert InRange(init, |nodes|) by {
        forall i | 0 <= i < m ensures init[i] == chain[i] {
        }
      }
      ProjPathsFrom(nodes, init);
      var r0 := ProjPaths(nodes, init);
      var r := ProjPaths(nodes, chain);
      forall k | 0 <= k < |r| ensures FromChain(nodes, chain, r[k]) {
        if k < |r0| {
          assert r[k] == r0[k];
          var i :| 0 <= i < |init| && FromNode(nodes, init[i], r0[k]);
          assert init[i] == chain[i];
        } else {
          var pre := PrefixPath(nodes, chain[m]);
          assert |pre| > 0 && r == r0 + [Inserted(pre, Uniform(|pre|, nodes[chain[m]].twu))];
          assert FromNode(nodes, chain[m], r[k]);
        }
      }
    }
  }

  // ---------------------------------------------------------------------
  // Nodes, projections and heights

  /** Every node other than the root lies on an inserted path, so its path
      is no longer than the tallest one. */
  lemma NodeHeight(nodes: seq<Node>, header: map<Item, seq<nat>>, ins: seq<Inserted>, c: nat)
    requires Holds(nodes, header, ins) && 0 < c < |nodes|
    ensures 0 < |PathTo(nodes, c)| <= Height(ins)
  {
    assert Reach(nodes, ins);
    var k :| 0 <= k < |ins| && IsPrefix(PathTo(nodes, c), ins[k].path);
    PathLength(nodes, c);
  }

  /** Under the invariant, a node's path is increasing and below the prefix. */
  lemma NodePath(nodes: seq<Node>, header: map<Item, seq<nat>>, ins: seq<Inserted>, P: seq<Item>, c: nat)
    requires Holds(nodes, header, ins) && PathsOk(ins, P) && 0 < c < |nodes|
    ensures A.Increasing(PathTo(nodes, c)) && BelowAll(PathTo(nodes, c), P)
  {
    assert Reach(nodes, ins);
    var k :| 0 <= k < |ins| && IsPrefix(PathTo(nodes, c), ins[k].path);
    var s := PathTo(nodes, c);
    var t := ins[k].path;
    assert s == t[..|s|] && BelowAll(t, P);
    forall i, j | 0 <= i < j < |s| ensures s[i] < s[j] {
      assert s[i] == t[i] && s[j] == t[j];
    }
    forall y, p | y in s && p in P ensures y < p {
      var i :| 0 <= i < |s| && s[i] == y;
      assert t[i] == y && y in t;
    }
  }

  /** The path of a node of item x is its prefix path followed by x. */
  lemma PathSplit(nodes: seq<Node>, c: nat)
    requires Parented(nodes) && 0 < c < |nodes|
    ensures PathTo(nodes, c) == PrefixPath(nodes, c) + [nodes[c].item]
  {
  }

  /** A projected path of a chain node of x: increasing, below P + [x],
      uniform with the node's utility, and shorter than the tallest path. */
  lemma ProjPathOk(nodes: seq<Node>, header: map<Item, seq<nat>>, ins: seq<Inserted>, P: seq<Item>, x: Item, c: nat, e: Inserted)
    requires Holds(nodes, header, ins) && PathsOk(ins, P)
    requires 0 < c < |nodes| && nodes[c].item == x && FromNode(nodes, c, e)
    ensures A.Increasing(e.path) && BelowAll(e.path, P + [x])
    ensures e.weights == Uniform(|e.path|, Weight(e))
  {
    NodePath(nodes, header, ins, P, c);
    PathSplit(nodes, c);
    var s := PathTo(nodes, c);
    var pre := PrefixPath(nodes, c);
    assert pre == s[..|pre|];
    forall i, j | 0 <= i < j < |pre| ensures pre[i] < pre[j] {
      assert pre[i] == s[i] && pre[j] == s[j];
    }
    forall y, p | y in pre && p in P + [x] ensures y < p {
      var i :| 0 <= i < |pre| && pre[i] == y;
      var z := s[|pre|];
      assert s[i] == y && z == x && y in s;
      if p != x {
        assert p in P;
      }
    }
  }

  /** A projected path of a chain node is shorter than the tallest path. */
  lemma ProjPathShorter(nodes: seq<Node>, header: map<Item, seq<nat>>, ins: seq<Inserted>, c: nat, e: Inserted)
    requires Holds(nodes, header, ins) && 0 < c < |nodes| && FromNode(nodes, c, e)
    ensures |e.path| < Height(ins)
  {
    NodeHeight(nodes, header, ins, c);
    PathSplit(nodes, c);
  }

  /** Projecting on an item of the header yields a tree of smaller height:
      the recursion of get_candidates terminates. */
  lemma ProjHeight(nodes: seq<Node>, header: map<Item, seq<nat>>, ins: seq<Inserted>, x: Item)
    requires Holds(nodes, header, ins) && x in header
    ensures (HeaderChain(nodes, x); Height(ProjPaths(nodes, ChainOf(header, x))) < Height(ins))
  {
    HeaderChain(nodes, x);
    HeaderNonempty(nodes, x);
    var chain := header[x];
    assert ChainOf(header, x) == chain;
    var r := ProjPaths(nodes, chain);
    if |r| > 0 {
      ProjPathsFrom(nodes, chain);
      var k :| 0 <= k < |r| && |r[k].path| == Height(r);
      assert FromChain(nodes, chain, r[k]);
      var i :| 0 <= i < |chain| && FromNode(nodes, chain[i], r[k]);
      ProjPathShorter(nodes, header, ins, chain[i], r[k]);
    } else {
      NodeHeight(nodes, header, ins, chain[0]);
    }
  }

  /** The paths of a projection meet the path conditions of P + [x]. */
  lemma ProjPathsOk(nodes: seq<Node>, header: map<Item, seq<nat>>, ins: seq<Inserted>, P: seq<Item>, x: Item)
    requires Holds(nodes, header, ins) && PathsOk(ins, P)
    ensures (HeaderChain(nodes, x); PathsOk(ProjPaths(nodes, ChainOf(header, x)), P + [x]))
  {
    HeaderChain(nodes, x);
    var chain := ChainOf(header, x);
    var r := ProjPaths(nodes, chain);
    ProjPathsFrom(nodes, chain);
    forall k | 0 <= k < |r|
      ensures A.Increasing(r[k].path) && BelowAll(r[k].path, P + [x]) && r[k].weights == Uniform(|r[k].path|, Weight(r[k]))
    {
      var i :| 0 <= i < |chain| && FromNode(nodes, chain[i], r[k]);
      ProjPathOk(nodes, header, ins, P, x, chain[i], r[k]);
    }
  }

  /** An item of the tree is below the prefix. */
  lemma HeaderBelow(nodes: seq<Node>, header: map<Item, seq<nat>>, ins: seq<Inserted>, P: seq<Item>, x: Item)
    requires Holds(nodes, header, ins) && PathsOk(ins, P) && x in header
    ensures BelowAll([x], P)
  {
    HeaderChain(nodes, x);
    HeaderNonempty(nodes, x);
    var c := header[x][0];
    assert ChainOf(header, x) == header[x];
    NodePath(nodes, header, ins, P, c);
    PathSplit(nodes, c);
    var s := PathTo(nodes, c);
    var z := s[|s| - 1];
    assert z == x && z in s;
  }

  /** The prefix extended by a smaller item still descends. */
  lemma DescendingSnoc(P: seq<Item>, x: Item)
    requires Descending(P) && BelowAll([x], P)
    ensures Descending(P + [x])
  {
    var Q := P + [x];
    forall i, j | 0 <= i < j < |Q| ensures Q[i] > Q[j] {
      if j == |P| {
        var p := P[i];
        assert x in [x] && p in P;
      }
    }
  }

  /** The chain sum of x over nodes whose prefix path holds Y is the
      weight of the paths holding Y and x, i.e. the TWU of Y, x and P. */
  lemma ChainSum(nodes: seq<Node>, header: map<Item, seq<nat>>, ins: seq<Inserted>, db: seq<Txn>, P: seq<Item>, x: Item, Y: seq<Item>)
    requires Holds(nodes, header, ins) && Rel(ins, db, P)
    requires BelowAll(Y + [x], P) && forall y :: y in Y ==> y < x
    ensures (HeaderChain(nodes, x); ProjSum(nodes, ChainOf(header, x), Y) == TWU(Y + [x] + P, db))
  {
    HeaderChain(nodes, x);
    PathTwIsTw(ins, P, x, Y);
  }

  /** Projection on an item of the header keeps the relation for P + [x]. */
  lemma ProjRel(nodes: seq<Node>, header: map<Item, seq<nat>>, ins: seq<Inserted>, db: seq<Txn>, P: seq<Item>, x: Item)
    requires Holds(nodes, header, ins) && Rel(ins, db, P) && x in header
    ensures (HeaderChain(nodes, x); Rel(ProjPaths(nodes, ChainOf(header, x)), db, P + [x]))
  {
    HeaderChain(nodes, x);
    var chain := header[x];
    assert ChainOf(header, x) == chain;
    var r := ProjPaths(nodes, chain);
    HeaderBelow(nodes, header, ins, P, x);
    DescendingSnoc(P, x);
    ProjPathsOk(nodes, header, ins, P, x);
    forall Y | |Y| > 0 && BelowAll(Y, P + [x]) ensures Tw(r, Y) == TWU(Y + (P + [x]), db) {
      ProjTw(nodes, chain, Y);
      forall y | y in Y ensures y < x {
        assert x in P + [x];
      }
      assert BelowAll(Y + [x], P) by {
        forall y, p | y in Y + [x] && p in P ensures y < p {
          if y != x {
            assert y in Y && p in P + [x];
          } else {
            assert x in [x];
          }
        }
      }
      ChainSum(nodes, header, ins, db, P, x, Y);
      TwuSameItems(Y + [x] + P, Y + (P + [x]), db);
    }
  }

  /** The full chain sum of x is the TWU of x with the prefix. */
  lemma ChainTotal(nodes: seq<Node>, header: map<Item, seq<nat>>, ins: seq<Inserted>, db: seq<Txn>, P: seq<Item>, x: Item)
    requires Holds(nodes, header, ins) && Rel(ins, db, P) && BelowAll([x], P)
    ensures (HeaderChain(nodes, x); ProjSum(nodes, ChainOf(header, x), []) == TWU([x] + P, db))
  {
    ChainSum(nodes, header, ins, db, P, x, []);
    assert [] + [x] + P == [x] + P;
  }

  /** Some inserted path holds whatever itemset has nonzero weight. */
  lemma {:induction false} TwWitness(ins: seq<Inserted>, Y: seq<Item>)
    requires Tw(ins, Y) != 0
    ensures exists k :: 0 <= k < |ins| && Within(Y, ins[k].path)
    decreases |ins|
  {
    var m := |ins| - 1;
    if Within(Y, ins[m].path) {
    } else {
      TwWitness(ins[..m], Y);
      var k :| 0 <= k < m && Within(Y, ins[..m][k].path);
      assert ins[..m][k] == ins[k];
    }
  }

  /** A tree in which a nonempty itemset has nonzero weight has a child
      under the root: `proj.root.children` is not empty. */
  lemma RootHasChildren(nodes: seq<Node>, header: map<Item, seq<nat>>, ins: seq<Inserted>, Y: seq<Item>)
    requires Holds(nodes, header, ins) && |Y| > 0 && Tw(ins, Y) != 0
    ensures |nodes[0].children| > 0
  {
    TwWitness(ins, Y);
    var k :| 0 <= k < |ins| && Within(Y, ins[k].path);
    var y := Y[0];
    assert y in Y;
    assert ins[k].path[0] in nodes[0].children;
  }

  // ---------------------------------------------------------------------
  // One item of get_candidates

  /** The largest item of a wanted itemset is below the prefix and, with
      it, reaches the threshold in TWU. */
  lemma LastPromising(Z: seq<Item>, P: seq<Item>, db: seq<Txn>, minUtil: int)
    requires Wanted(Z, P, db, minUtil) && TotalsNonneg(db)
    ensures BelowAll([Z[|Z| - 1]], P) && TWU([Z[|Z| - 1]] + P, db) >= minUtil
  {
    var x := Z[|Z| - 1];
    assert x in Z;
    TwuAntiMonotone([x] + P, Z + P, db);
  }

  /** The largest item of every wanted itemset has a chain in the tree whose
      sum reaches the threshold: get_candidates reaches it and records. */
  lemma Promising(nodes: seq<Node>, header: map<Item, seq<nat>>, ins: seq<Inserted>, db: seq<Txn>, P: seq<Item>, minUtil: int)
    requires Holds(nodes, header, ins) && Rel(ins, db, P) && TotalsNonneg(db) && minUtil > 0
    ensures forall Z :: Wanted(Z, P, db, minUtil) ==>
      (Z[|Z| - 1] in header && (HeaderChain(nodes, Z[|Z| - 1]); ProjSum(nodes, header[Z[|Z| - 1]], []) >= minUtil))
  {
    forall Z | Wanted(Z, P, db, minUtil) ensures Z[|Z| - 1] in header
      && (HeaderChain(nodes, Z[|Z| - 1]); ProjSum(nodes, header[Z[|Z| - 1]], []) >= minUtil)
    {
      var x := Z[|Z| - 1];
      LastPromising(Z, P, db, minUtil);
      ChainTotal(nodes, header, ins, db, P, x);
    }
  }

  /** The largest item of every wanted itemset is an item of the header. */
  lemma LastInHeader(nodes: seq<Node>, header: map<Item, seq<nat>>, ins: seq<Inserted>, db: seq<Txn>, P: seq<Item>, minUtil: int)
    requires Holds(nodes, header, ins) && Rel(ins, db, P) && TotalsNonneg(db) && minUtil > 0
    ensures forall Z :: Wanted(Z, P, db, minUtil) ==> Z[|Z| - 1] in header
  {
    Promising(nodes, header, ins, db, P, minUtil);
  }

  /** A recorded candidate is good: its key is increasing and its chain
      sum is its TWU. */
  lemma RecordGood(nodes: seq<Node>, header: map<Item, seq<nat>>, ins: seq<Inserted>, db: seq<Txn>, P: seq<Item>, x: Item, v: int, minUtil: int)
    requires Holds(nodes, header, ins) && Rel(ins, db, P) && x in header
    requires (HeaderChain(nodes, x); v == ProjSum(nodes, ChainOf(header, x), [])) && v >= minUtil
    ensures Good(SortedItems(P + [x]), v, db, minUtil)
  {
    HeaderBelow(nodes, header, ins, P, x);
    ChainTotal(nodes, header, ins, db, P, x);
    DescendingSnoc(P, x);
    var Q := P + [x];
    assert Distinct(Q) by {
      forall i, j | 0 <= i < j < |Q| ensures Q[i] != Q[j] {
        assert Q[i] > Q[j];
      }
    }
    SortedItemsDistinct(Q);
    var K := SortedItems(Q);
    assert |K| == |Q| by {
      assert |multiset(K)| == |K| && |multiset(Q)| == |Q|;
    }
    forall y ensures y in K <==> y in [x] + P {
      assert y in K <==> y in multiset(K);
      assert y in Q <==> y in multiset(Q);
    }
    TwuSameItems(K, [x] + P, db);
  }

  /** A one-item wanted itemset has the recorded key. */
  lemma LoneItem(Z: seq<Item>, P: seq<Item>)
    requires |Z| == 1
    ensures SortedItems(Z + P) == SortedItems(P + [Z[0]])
  {
    assert multiset(Z + P) == multiset(P + [Z[0]]) by {
      assert Z == [Z[0]];
    }
    SortedItemsPerm(Z + P, P + [Z[0]]);
  }

  /** Without its largest item, a wanted itemset is wanted under the prefix
      extended by that item, with the same items overall. */
  lemma WantedShift(Z: seq<Item>, P: seq<Item>, db: seq<Txn>, minUtil: int)
    requires Wanted(Z, P, db, minUtil) && |Z| > 1
    ensures Wanted(Z[..|Z| - 1], P + [Z[|Z| - 1]], db, minUtil)
    ensures multiset(Z[..|Z| - 1] + (P + [Z[|Z| - 1]])) == multiset(Z + P)
  {
    var m := |Z| - 1;
    var x := Z[m];
    var Z' := Z[..m];
    assert Z == Z' + [x];
    assert A.Increasing(Z') by {
      forall i, j | 0 <= i < j < |Z'| ensures Z'[i] < Z'[j] {
        assert Z'[i] == Z[i] && Z'[j] == Z[j];
      }
    }
    forall y, p | y in Z' && p in P + [x] ensures y < p {
      var i :| 0 <= i < |Z'| && Z'[i] == y;
      assert Z[i] == y && y in Z;
      if p != x {
        assert p in P;
      }
    }
    forall y ensures y in Z' + (P + [x]) <==> y in Z + P {
      assert y in Z <==> y in Z' || y == x;
    }
    TwuSameItems(Z' + (P + [x]), Z + P, db);
  }

  /** The root of a tree with a wanted itemset has a child. */
  lemma RecursionHappens(nodes: seq<Node>, header: map<Item, seq<nat>>, ins: seq<Inserted>, db: seq<Txn>, Q: seq<Item>, Z: seq<Item>, minUtil: int)
    requires Holds(nodes, header, ins) && Rel(ins, db, Q) && TotalsNonneg(db) && minUtil > 0
    requires Wanted(Z, Q, db, minUtil)
    ensures |nodes[0].children| > 0
  {
    var z := Z[0];
    assert z in Z;
    TwuAntiMonotone([z] + Q, Z + Q, db);
    assert BelowAll([z], Q);
    RootHasChildren(nodes, header, ins, [z]);
  }

  /** When anything is wanted under P + [x], the projection on x has root
      children, so get_candidates recurses into it. */
  lemma Deeper(nodes: seq<Node>, header: map<Item, seq<nat>>, ins: seq<Inserted>, db: seq<Txn>, P: seq<Item>, x: Item, minUtil: int)
    requires Holds(nodes, header, ins) && Rel(ins, db, P + [x]) && TotalsNonneg(db) && minUtil > 0
    ensures forall Z :: Wanted(Z, P + [x], db, minUtil) ==> |nodes[0].children| > 0
  {
    forall Z | Wanted(Z, P + [x], db, minUtil) ensures |nodes[0].children| > 0 {
      RecursionHappens(nodes, header, ins, db, P + [x], Z, minUtil);
    }
  }

  /** With the key of P + [x] recorded and everything wanted under P + [x]
      recorded, everything wanted under P whose largest item is x is
      recorded. */
  lemma Covered(db: seq<Txn>, P: seq<Item>, x: Item, minUtil: int, cands: map<seq<Item>, int>)
    requires SortedItems(P + [x]) in cands
    requires forall Z :: Wanted(Z, P + [x], db, minUtil) ==> SortedItems(Z + (P + [x])) in cands
    ensures forall Z :: Wanted(Z, P, db, minUtil) && Z[|Z| - 1] == x ==> SortedItems(Z + P) in cands
  {
    forall Z | Wanted(Z, P, db, minUtil) && Z[|Z| - 1] == x ensures SortedItems(Z + P) in cands {
      if |Z| == 1 {
        LoneItem(Z, P);
      } else {
        WantedShift(Z, P, db, minUtil);
        SortedItemsPerm(Z[..|Z| - 1] + (P + [x]), Z + P);
      }
    }
  }
  /** Every wanted itemset under P whose largest item is in S is recorded. */
  ghost predicate CoveredBy(P: seq<Item>, db: seq<Txn>, minUtil: int, S: set<Item>, cands: map<seq<Item>, int>) {
    forall Z :: Wanted(Z, P, db, minUtil) && Z[|Z| - 1] in S ==> SortedItems(Z + P) in cands
  }

  /** Mining one more item x extends the covered set by x. */
  lemma CoverStep(P: seq<Item>, db: seq<Txn>, minUtil: int, S: set<Item>, x: Item, cands0: map<seq<Item>, int>, cands: map<seq<Item>, int>)
    requires CoveredBy(P, db, minUtil, S, cands0) && cands0.Keys <= cands.Keys
    requires forall Z :: Wanted(Z, P, db, minUtil) && Z[|Z| - 1] == x ==> SortedItems(Z + P) in cands
    ensures CoveredBy(P, db, minUtil, S + {x}, cands)
  {
  }

  /** Covering every item of the header covers every wanted itemset. */
  lemma CoverAll(nodes: seq<Node>, header: map<Item, seq<nat>>, ins: seq<Inserted>, db: seq<Txn>, P: seq<Item>, minUtil: int, S: set<Item>, cands: map<seq<Item>, int>)
    requires Holds(nodes, header, ins) && Rel(ins, db, P) && TotalsNonneg(db) && minUtil > 0
    requires header.Keys <= S && CoveredBy(P, db, minUtil, S, cands)
    ensures forall Z :: Wanted(Z, P, db, minUtil) ==> SortedItems(Z + P) in cands
  {
    LastInHeader(nodes, header, ins, db, P, minUtil);
  }
}
