/** `construct` and the extension loop of experiments/hui.py on exact lists:
    joining the list of P + [x] with that of P + [y] (subtracting the list of
    P when P is nonempty) gives the exact list of P + [x, y], so the
    extension loop keeps exactly the later items whose extension occurs. */
module ExpHuiJoin {
  import opened Db
  import opened Ordering
  import opened UtilityLists
  import opened ExpHui
  import opened ExpHuiProofs
  import HMP = HuiMinerProofs

  /** The `prefix_ul` huiMiner passes for P: none for the empty prefix. */
  function PrefixList(rev: seq<RevTxn>, P: seq<Item>): seq<Entry>
    requires AllAligned(rev)
  {
    if |P| == 0 then [] else ListFor(rev, P)
  }

  /** The entry of X in one revised transaction. */
  function EntryOf(rt: RevTxn, X: seq<Item>): Entry
    requires |X| > 0 && Aligned(rt) && ContainsR(rt, X)
  {
    assert X[|X| - 1] in X;
    Entry(rt.tid, UtilInR(rt, X), Remaining(rt, X[|X| - 1]))
  }

  /** The dictionary lookup searches from the back: a later entry wins. */
  lemma {:induction false} FindAppend(a: seq<Entry>, b: seq<Entry>, tid: nat)
    ensures Find(a + b, tid) == if Find(b, tid).Some? then Find(b, tid) else Find(a, tid)
    decreases |b|
  {
    if |b| == 0 {
      assert a + b == a;
    } else {
      var n := |b| - 1;
      assert (a + b)[..|a + b| - 1] == a + b[..n];
      assert (a + b)[|a + b| - 1] == b[n];
      FindAppend(a, b[..n], tid);
    }
  }

  /** Looking up a transaction's tid in an exact list finds that
      transaction's entry of X, or nothing when it does not contain X. */
  lemma {:induction false} FindListFor(rev: seq<RevTxn>, X: seq<Item>, j: nat)
    requires |X| > 0 && AllAligned(rev) && TidsIncreasing(rev) && j < |rev|
    ensures Find(ListFor(rev, X), rev[j].tid)
      == if ContainsR(rev[j], X) then Some(EntryOf(rev[j], X)) else None
  {
    HMP.ListForHead(rev, X);
    var tail := ListFor(rev[1..], X);
    FindAppend(HMP.HeadEntry(rev[0], X), tail, rev[j].tid);
    if j == 0 {
      ListForTidsAbove(rev[1..], X, rev[0].tid);
      FindHead(rev[0], X, rev[0].tid);
    } else {
      TidsTail(rev);
      FindListFor(rev[1..], X, j - 1);
      FindHead(rev[0], X, rev[j].tid);
    }
  }

  lemma FindHead(rt: RevTxn, X: seq<Item>, tid: nat)
    requires |X| > 0 && Aligned(rt)
    ensures Find(HMP.HeadEntry(rt, X), tid)
      == if ContainsR(rt, X) && tid == rt.tid then Some(EntryOf(rt, X)) else None
  {
  }

  lemma TidsTail(rev: seq<RevTxn>)
    requires TidsIncreasing(rev) && |rev| > 0
    ensures TidsIncreasing(rev[1..]) && forall k :: 1 <= k < |rev| ==> rev[1..][k - 1] == rev[k] && rev[0].tid < rev[k].tid
  {
  }

  /** The utility of P + [z] splits into that of P and that of z. */
  lemma UtilSplit(rt: RevTxn, P: seq<Item>, z: Item)
    ensures UtilInR(rt, P + [z]) == UtilInR(rt, P) + UtilInR(rt, [z])
  {
    SumOfAppend(Zip(rt.items, rt.utils), P, [z]);
  }

  /** One entry of x's list: `construct` produces the entry of P + [x, y]
      for that transaction, or nothing when it lacks y. */
  lemma StepExact(rev: seq<RevTxn>, P: seq<Item>, x: Item, y: Item, j: nat)
    requires AllAligned(rev) && AllProper(rev) && TidsIncreasing(rev) && j < |rev|
    requires ContainsR(rev[j], P + [x])
    ensures ConstructStep(PrefixList(rev, P), EntryOf(rev[j], P + [x]), ListFor(rev, P + [y]))
      == Some(HMP.HeadEntry(rev[j], P + [x] + [y]))
  {
    var rt := rev[j];
    var ex := EntryOf(rt, P + [x]);
    var p, ly := PrefixList(rev, P), ListFor(rev, P + [y]);
    FindListFor(rev, P + [y], j);
    HMP.HeadExtend(rt, P + [x], y);
    if ContainsR(rt, P + [y]) {
      assert Proper(rt);
      assert y in P + [y];
      var ey := EntryOf(rt, P + [y]);
      assert ey.rutil == Remaining(rt, y) by {
        assert (P + [y])[|P + [y]| - 1] == y;
      }
      UtilSplit(rt, P, x);
      UtilSplit(rt, P, y);
      var u := UtilInR(rt, P + [x]) + UtilInR(rt, [y]);
      SumOfNonneg(rt.items, rt.utils, P + [x]);
      SumOfNonneg(rt.items, rt.utils, [y]);
      RemainingNonneg(rt, y);
      if |P| == 0 {
        assert UtilInR(rt, P) == 0;
        StepCombine(p, ex, ly, ey, u);
      } else {
        FindListFor(rev, P, j);
        assert ContainsR(rt, P) by {
          forall z | z in P ensures z in P + [x] {
          }
        }
        var ep := Find(ListFor(rev, P), rt.tid).value;
        assert ep in ListFor(rev, P);
        StepCombine(p, ex, ly, ey, u);
      }
    } else {
      assert !(ContainsR(rt, P + [x]) && ContainsR(rt, [y])) by {
        forall z | z in P + [y] && z != y ensures z in P + [x] {
        }
      }
    }
  }

  /** What `construct` does for one entry of x's list whose tid
      y's list holds, with the combined iutil u. */
  lemma StepCombine(p: seq<Entry>, ex: Entry, ly: seq<Entry>, ey: Entry, u: int)
    requires Find(ly, ex.tid) == Some(ey) && u + ey.rutil >= 0
    requires p == [] ==> u == ex.iutil + ey.iutil
    requires p != [] ==> Find(p, ex.tid).Some? && u == ex.iutil + ey.iutil - Find(p, ex.tid).value.iutil
    ensures ConstructStep(p, ex, ly) == Some([Entry(ex.tid, u, ey.rutil)])
  {
  }

  /** `construct` from position j of x's list on. */
  lemma {:induction false} ConstructFrom(rev: seq<RevTxn>, P: seq<Item>, x: Item, y: Item, j: nat)
    requires AllAligned(rev) && AllProper(rev) && TidsIncreasing(rev) && j <= |rev|
    ensures AllAligned(rev[j..])
    ensures Construct(PrefixList(rev, P), ListFor(rev[j..], P + [x]), ListFor(rev, P + [y]))
      == Some(ListFor(rev[j..], P + [x] + [y]))
    decreases |rev| - j
  {
    AllAlignedSuffix(rev, j);
    if j < |rev| {
      ConstructFrom(rev, P, x, y, j + 1);
      var s := rev[j..];
      assert s[0] == rev[j] && s[1..] == rev[j + 1..];
      HMP.ListForHead(s, P + [x]);
      HMP.ListForHead(s, P + [x] + [y]);
      var p, ly := PrefixList(rev, P), ListFor(rev, P + [y]);
      var rest := ListFor(rev[j + 1..], P + [x]);
      if ContainsR(rev[j], P + [x]) {
        StepExact(rev, P, x, y, j);
        var xs := [EntryOf(rev[j], P + [x])] + rest;
        assert xs[0] == EntryOf(rev[j], P + [x]) && xs[1..] == rest;
      } else {
        assert !ContainsR(rev[j], P + [x] + [y]) by {
          forall z | z in P + [x] ensures z in P + [x] + [y] {
          }
        }
        assert HMP.HeadEntry(s[0], P + [x]) == [] && HMP.HeadEntry(s[0], P + [x] + [y]) == [];
        assert ListFor(s, P + [x]) == rest;
        assert ListFor(s, P + [x] + [y]) == ListFor(rev[j + 1..], P + [x] + [y]);
      }
    }
  }

  lemma AllAlignedSuffix(rev: seq<RevTxn>, j: nat)
    requires AllAligned(rev) && j <= |rev|
    ensures AllAligned(rev[j..])
  {
    forall k | 0 <= k < |rev[j..]| ensures Aligned(rev[j..][k]) {
      assert rev[j..][k] == rev[j + k];
    }
  }

  /** `construct(prefix_ul, x_ul, y_ul)` on the exact lists of P, P + [x] and
      P + [y] is the exact list of P + [x, y]: it never raises KeyError. */
  lemma ConstructExact(rev: seq<RevTxn>, P: seq<Item>, x: Item, y: Item)
    requires AllAligned(rev) && AllProper(rev) && TidsIncreasing(rev)
    ensures Construct(PrefixList(rev, P), ListFor(rev, P + [x]), ListFor(rev, P + [y]))
      == Some(ListFor(rev, P + [x] + [y]))
  {
    ConstructFrom(rev, P, x, y, 0);
    assert rev[0..] == rev;
  }

  lemma KeysSnoc(a: Lists, p: (Item, seq<Entry>))
    ensures KeysOf(a + [p]) == KeysOf(a) + [p.0]
  {
  }

  lemma ChainPrefix(twu: map<Item, int>, s: seq<Item>, n: nat)
    requires Chain(twu, s) && n <= |s|
    ensures Chain(twu, s[..n])
  {
  }

  lemma ChainSnoc(twu: map<Item, int>, s: seq<Item>, y: Item)
    requires Chain(twu, s)
    requires forall i :: 0 <= i < |s| ==> KeyLt(Key(twu, s[i]), Key(twu, y))
    ensures Chain(twu, s + [y])
  {
  }

  /** One more later pair: the loop appends its constructed list when
      that is nonempty. */
  lemma ExtensionsSnoc(p: seq<Entry>, xl: seq<Entry>, ys: Lists, r0: Lists, nu: seq<Entry>)
    requires |ys| > 0
    requires Extensions(p, xl, ys[..|ys| - 1]) == Some(r0)
    requires Construct(p, xl, ys[|ys| - 1].1) == Some(nu)
    ensures Extensions(p, xl, ys) == Some(r0 + (if nu != [] then [(ys[|ys| - 1].0, nu)] else []))
  {
  }

  lemma ExactPrefix(rev: seq<RevTxn>, P: seq<Item>, ys: Lists, n: nat)
    requires AllAligned(rev) && ExactLists(rev, P, ys) && n <= |ys|
    ensures ExactLists(rev, P, ys[..n])
  {
    assert forall i :: 0 <= i < n ==> ys[..n][i] == ys[i];
  }

  /** The extension loop on exact lists: each later item whose extension
      occurs, with its exact list, and no other item; and no KeyError. */
  lemma {:induction false} ExtensionsExact(rev: seq<RevTxn>, P: seq<Item>, x: Item, ys: Lists)
    requires AllAligned(rev) && AllProper(rev) && TidsIncreasing(rev) && ExactLists(rev, P, ys)
    ensures var r := Extensions(PrefixList(rev, P), ListFor(rev, P + [x]), ys);
      && r.Some? && ExactLists(rev, P + [x], r.value)
      && (forall y :: y in KeysOf(r.value) <==> y in KeysOf(ys) && |ListFor(rev, P + [x] + [y])| > 0)
  {
    var p, xl := PrefixList(rev, P), ListFor(rev, P + [x]);
    if |ys| > 0 {
      var n := |ys| - 1;
      var init := ys[..n];
      ExactPrefix(rev, P, ys, n);
      ExtensionsExact(rev, P, x, init);
      var r0 := Extensions(p, xl, init).value;
      var y := ys[n].0;
      assert ys[n].1 == ListFor(rev, P + [y]);
      ConstructExact(rev, P, x, y);
      var nu := ListFor(rev, P + [x] + [y]);
      ExtensionsSnoc(p, xl, ys, r0, nu);
      ExactStep(rev, P + [x], ys, r0, nu);
    }
  }

  /** One more later pair in the extension loop on exact lists: the lists
      appended so far stay exact, and their keys are those of the pairs
      seen whose extension occurs. */
  lemma ExactStep(rev: seq<RevTxn>, Q: seq<Item>, ys: Lists, r0: Lists, nu: seq<Entry>)
    requires AllAligned(rev) && |ys| > 0 && ExactLists(rev, Q, r0)
    requires forall z :: z in KeysOf(r0) <==> z in KeysOf(ys[..|ys| - 1]) && |ListFor(rev, Q + [z])| > 0
    requires nu == ListFor(rev, Q + [ys[|ys| - 1].0])
    ensures ExactLists(rev, Q, r0 + (if nu != [] then [(ys[|ys| - 1].0, nu)] else []))
    ensures forall z :: z in KeysOf(r0 + (if nu != [] then [(ys[|ys| - 1].0, nu)] else [])) <==>
      z in KeysOf(ys) && |ListFor(rev, Q + [z])| > 0
  {
    var n := |ys| - 1;
    var y := ys[n].0;
    assert ys == ys[..n] + [ys[n]];
    KeysSnoc(ys[..n], ys[n]);
    if nu != [] {
      KeysSnoc(r0, (y, nu));
      var r := r0 + [(y, nu)];
      assert forall i :: 0 <= i < |r0| ==> r[i] == r0[i];
    } else {
      assert r0 + [] == r0;
    }
  }

  /** The extension loop keeps the order of the later pairs. */
  lemma {:induction false} ExtensionsChain(rev: seq<RevTxn>, P: seq<Item>, x: Item, ys: Lists, twu: map<Item, int>)
    requires AllAligned(rev) && AllProper(rev) && TidsIncreasing(rev) && ExactLists(rev, P, ys)
    requires Chain(twu, KeysOf(ys))
    ensures Extensions(PrefixList(rev, P), ListFor(rev, P + [x]), ys).Some?
    ensures Chain(twu, KeysOf(Extensions(PrefixList(rev, P), ListFor(rev, P + [x]), ys).value))
  {
    ExtensionsExact(rev, P, x, ys);
    var p, xl := PrefixList(rev, P), ListFor(rev, P + [x]);
    if |ys| > 0 {
      var n := |ys| - 1;
      var init := ys[..n];
      ExactPrefix(rev, P, ys, n);
      ChainPrefix(twu, KeysOf(ys), n);
      assert KeysOf(init) == KeysOf(ys)[..n];
      ExtensionsChain(rev, P, x, init, twu);
      ExtensionsExact(rev, P, x, init);
      var r0 := Extensions(p, xl, init).value;
      var y := ys[n].0;
      ConstructExact(rev, P, x, y);
      var nu := ListFor(rev, P + [x] + [y]);
      ExtensionsSnoc(p, xl, ys, r0, nu);
      if nu != [] {
        forall i | 0 <= i < |KeysOf(r0)| ensures KeyLt(Key(twu, KeysOf(r0)[i]), Key(twu, y)) {
          var z := KeysOf(r0)[i];
          assert z in KeysOf(r0);
          var k :| 0 <= k < n && KeysOf(init)[k] == z;
          assert KeysOf(ys)[k] == z && KeysOf(ys)[n] == y;
        }
        ChainSnoc(twu, KeysOf(r0), y);
        KeysSnoc(r0, (y, nu));
      } else {
        assert r0 + [] == r0;
      }
    }
  }
}
