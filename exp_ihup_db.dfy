/** The database side of experiments/ihup.py: each parsed line has its
    (item, utility) pairs sorted by item before it is stored and inserted,
    and the tree built from the sorted lines relates to them under the empty
    prefix. */
module ExpIhupDb {
  import opened Db
  import opened Ordering
  import opened PrefixTree
  import opened ExpIhupTheory
  import A = Apriori
  import opened ExpHui
  import opened ExpHuiProofs

  /** `key=lambda x: int(x[0])`. */
  function PairItem(): Pair -> (int, int) {
    (p: Pair) => (p.0, 0)
  }

  /** `paired = sorted(zip(raw_items, raw_utils), key=...)` unzipped into
      the stored line; the total travels with it. */
  function SortedLine(t: Txn): Txn {
    var f := SortBy(ZipPairs(t.items, t.utils), PairItem());
    Txn(Firsts(f), Seconds(f), t.total)
  }

  /** `transactions`: every line, sorted. */
  function SortedDb(db: seq<Txn>): (r: seq<Txn>)
    ensures |r| == |db| && forall k :: 0 <= k < |db| ==> r[k] == SortedLine(db[k])
  {
    seq(|db|, k requires 0 <= k < |db| => SortedLine(db[k]))
  }

  /** What `tree.insert_transaction(items, total_util)` inserts for each line. */
  function Lines(tdb: seq<Txn>): (r: seq<Inserted>)
    ensures |r| == |tdb|
    ensures forall k :: 0 <= k < |tdb| ==> r[k] == Inserted(tdb[k].items, Uniform(|tdb[k].items|, tdb[k].total))
  {
    seq(|tdb|, k requires 0 <= k < |tdb| => Inserted(tdb[k].items, Uniform(|tdb[k].items|, tdb[k].total)))
  }

  /** One more line read: its sorted form is stored, and what is inserted
      for it is appended to what was inserted before. */
  lemma LoadStep(db: seq<Txn>, k: nat, tdb: seq<Txn>)
    requires k < |db| && tdb == SortedDb(db[..k])
    ensures tdb + [SortedLine(db[k])] == SortedDb(db[..k + 1])
    ensures Lines(tdb + [SortedLine(db[k])])
      == Lines(tdb) + [Inserted(SortedLine(db[k]).items, Uniform(|SortedLine(db[k]).items|, SortedLine(db[k]).total))]
  {
    SortedDbSnoc(db, k);
    LinesSnoc(tdb, SortedLine(db[k]));
  }

  lemma SortedDbSnoc(db: seq<Txn>, k: nat)
    requires k < |db|
    ensures SortedDb(db[..k]) + [SortedLine(db[k])] == SortedDb(db[..k + 1])
  {
    var a, b := SortedDb(db[..k]) + [SortedLine(db[k])], SortedDb(db[..k + 1]);
    forall i | 0 <= i < |b| ensures a[i] == b[i] {
      assert b[i] == SortedLine(db[..k + 1][i]) && db[..k + 1][i] == db[i];
      if i < k {
        assert a[i] == SortedDb(db[..k])[i] == SortedLine(db[..k][i]) && db[..k][i] == db[i];
      }
    }
  }

  lemma LinesSnoc(tdb: seq<Txn>, t: Txn)
    ensures Lines(tdb + [t]) == Lines(tdb) + [Inserted(t.items, Uniform(|t.items|, t.total))]
  {
    var a, b := Lines(tdb + [t]), Lines(tdb) + [Inserted(t.items, Uniform(|t.items|, t.total))];
    forall i | 0 <= i < |a| ensures a[i] == b[i] {
      if i < |tdb| { assert (tdb + [t])[i] == tdb[i]; }
    }
  }

  /** Sorting a well-formed line gives strictly increasing items and the
      same item -> utility dictionary. */
  lemma SortedLineSame(t: Txn)
    requires WellFormed(t)
    ensures A.Increasing(SortedLine(t).items)
    ensures Dict(SortedLine(t)) == Dict(t)
  {
    var zs := ZipPairs(t.items, t.utils);
    var f := SortBy(zs, PairItem());
    var s := SortedLine(t);
    var kept := Elems(t.items);
    assert FirstsDistinct(zs) by {
      forall i, j | 0 <= i < j < |zs| ensures zs[i].0 != zs[j].0 {
        assert zs[i].0 == t.items[i] && zs[j].0 == t.items[j];
      }
    }
    PermFirsts(f, zs);
    forall p ensures p in f <==> p in zs && p.0 in kept {
      if p in zs {
        var m :| 0 <= m < |zs| && zs[m] == p;
        assert p.0 == t.items[m];
      }
    }
    PairsKept(t, f, kept, 0);
    PairsUtil(t, f, kept, 0);
    forall i, j | 0 <= i < j < |s.items| ensures s.items[i] < s.items[j] {
      assert KeyLe(PairItem()(f[i]), PairItem()(f[j]));
    }
    forall x ensures x in Dict(s) <==> x in Dict(t) {
      assert x in Dict(s) <==> x in s.items;
      assert x in Dict(t) <==> x in t.items;
    }
  }

  /** Sorting every line of a well-formed database changes neither the
      utility nor the TWU of any itemset. */
  lemma {:induction false} SortedDbSame(db: seq<Txn>, X: seq<Item>)
    requires WellFormedDb(db)
    ensures Utility(X, SortedDb(db)) == Utility(X, db)
    ensures TWU(X, SortedDb(db)) == TWU(X, db)
  {
    if |db| > 0 {
      var n := |db| - 1;
      var r := SortedDb(db);
      assert r[..n] == SortedDb(db[..n]);
      assert WellFormedDb(db[..n]) by {
        forall k | 0 <= k < n ensures WellFormed(db[..n][k]) {
          assert db[..n][k] == db[k];
        }
      }
      SortedDbSame(db[..n], X);
      SortedLineSame(db[n]);
      assert Dict(r[n]) == Dict(db[n]);
      assert Contains(r[n], X) == Contains(db[n], X);
      assert UtilIn(r[n], X) == UtilIn(db[n], X);
      assert r[n].total == db[n].total;
    }
  }

  /** Under the empty prefix, the inserted lines holding Y sum to the TWU
      of Y. */
  lemma {:induction false} LinesTw(tdb: seq<Txn>, Y: seq<Item>)
    requires forall k :: 0 <= k < |tdb| ==> |tdb[k].items| == |tdb[k].utils|
    requires |Y| > 0
    ensures Tw(Lines(tdb), Y) == TWU(Y, tdb)
  {
    if |tdb| > 0 {
      var n := |tdb| - 1;
      var t := tdb[n];
      assert Lines(tdb)[..n] == Lines(tdb[..n]);
      LinesTw(tdb[..n], Y);
      assert Within(Y, t.items) <==> Contains(t, Y);
      if Within(Y, t.items) {
        var y := Y[0];
        assert y in Y;
        assert |t.items| > 0;
      }
    }
  }

  /** The tree of lines with increasing items is the tree of the empty
      prefix. */
  lemma LinesRel(tdb: seq<Txn>)
    requires forall k :: 0 <= k < |tdb| ==> |tdb[k].items| == |tdb[k].utils| && A.Increasing(tdb[k].items)
    ensures Rel(Lines(tdb), tdb, [])
  {
    forall k | 0 <= k < |tdb|
      ensures Lines(tdb)[k].weights == Uniform(|Lines(tdb)[k].path|, Weight(Lines(tdb)[k]))
    {
    }
    forall Y | |Y| > 0 && BelowAll(Y, []) ensures Tw(Lines(tdb), Y) == TWU(Y + [], tdb) {
      assert Y + [] == Y;
      LinesTw(tdb, Y);
    }
  }

  /** The sorted lines of a well-formed database are aligned and increasing,
      and their totals are not negative. */
  lemma SortedDbShape(db: seq<Txn>)
    requires WellFormedDb(db)
    ensures forall k :: 0 <= k < |db| ==>
      |SortedDb(db)[k].items| == |SortedDb(db)[k].utils| && A.Increasing(SortedDb(db)[k].items)
    ensures TotalsNonneg(SortedDb(db))
  {
    WellFormedTotals(db);
    forall k | 0 <= k < |db|
      ensures |SortedDb(db)[k].items| == |SortedDb(db)[k].utils| && A.Increasing(SortedDb(db)[k].items)
    {
      SortedLineSame(db[k]);
    }
  }
  /** Every exact result of a tree mined from a well-formed database is a
      nonempty increasing itemset carrying its utility in the database. */
  lemma ResultsExact(db: seq<Txn>, minUtil: int, cands: map<seq<Item>, int>, results: map<seq<Item>, int>)
    requires WellFormedDb(db) && AllGood(cands, SortedDb(db), minUtil)
    requires forall X :: X in results <==> X in cands && Utility(X, SortedDb(db)) >= minUtil
    requires forall X :: X in results ==> results[X] == Utility(X, SortedDb(db))
    ensures forall X :: X in results ==> |X| > 0 && A.Increasing(X) && results[X] == Utility(X, db)
  {
    forall X | X in results ensures |X| > 0 && A.Increasing(X) && results[X] == Utility(X, db) {
      assert Good(X, cands[X], SortedDb(db), minUtil);
      SortedDbSame(db, X);
    }
  }

  /** With every wanted itemset of the empty prefix among the candidates,
      every nonempty increasing itemset whose utility reaches the threshold
      is a result. */
  lemma ResultsComplete(db: seq<Txn>, minUtil: int, cands: map<seq<Item>, int>, results: map<seq<Item>, int>)
    requires WellFormedDb(db)
    requires forall Z :: Wanted(Z, [], SortedDb(db), minUtil) ==> SortedItems(Z + []) in cands
    requires forall X :: X in results <==> X in cands && Utility(X, SortedDb(db)) >= minUtil
    ensures forall X :: |X| > 0 && A.Increasing(X) && Utility(X, db) >= minUtil ==> X in results
  {
    forall X | |X| > 0 && A.Increasing(X) && Utility(X, db) >= minUtil ensures X in results {
      SortedDbSame(db, X);
      UtilityAtMostTwu(X, db);
      assert X + [] == X;
      assert Wanted(X, [], SortedDb(db), minUtil);
      SortedItemsId(X);
    }
  }
}
