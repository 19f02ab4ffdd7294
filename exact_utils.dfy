/** `exact_high_utils(candidates, transactions, minutil)`, the same in
    experiments/ihup.py and experiments/up_growth.py: one scan of the
    transactions per candidate, summing the candidate's utilities in the
    transactions whose dictionary has every one of its items. */
module ExactUtils {
  import opened Db

  /** `[dict(zip(items, utils)) for items, utils in transactions]`. */
  function TransMaps(db: seq<Txn>): (r: seq<map<Item, int>>)
    ensures |r| == |db| && forall k :: 0 <= k < |db| ==> r[k] == Dict(db[k])
  {
    seq(|db|, k requires 0 <= k < |db| => Dict(db[k]))
  }

  /** `cand_set <= map.keys()` is the transaction holding the candidate. */
  lemma SubsetContains(t: Txn, X: seq<Item>)
    ensures Elems(X) <= Dict(t).Keys <==> Contains(t, X)
  {
    if Contains(t, X) {
      forall x | x in Elems(X) ensures x in Dict(t).Keys {
        assert x in X;
      }
    }
    if Elems(X) <= Dict(t).Keys {
      forall x | x in X ensures x in Dict(t) {
        assert x in Elems(X);
      }
    }
  }

  /** The utility of one candidate, accumulated over the transactions. */
  method CandidateUtility(cand: seq<Item>, db: seq<Txn>, transMap: seq<map<Item, int>>) returns (util: int)
    requires transMap == TransMaps(db)
    ensures util == Utility(cand, db)
  {
    var candSet := Elems(cand);
    util := 0;
    for k := 0 to |transMap|
      invariant util == Utility(cand, db[..k])
    {
      assert db[..k + 1][..k] == db[..k];
      SubsetContains(db[k], cand);
      if candSet <= transMap[k].Keys {
        util := util + SumOf(transMap[k], cand);
      }
    }
    assert db[..|db|] == db;
  }

  /** The candidates whose utility reaches the threshold, each mapped to
      that utility. */
  method ExactHighUtils(cands: map<seq<Item>, int>, db: seq<Txn>, minUtil: int) returns (r: map<seq<Item>, int>)
    ensures forall X :: X in r <==> X in cands && Utility(X, db) >= minUtil
    ensures forall X :: X in r ==> r[X] == Utility(X, db)
  {
    var transMap := TransMaps(db);
    r := map[];
    var rest := cands.Keys;
    while rest != {}
      invariant rest <= cands.Keys
      invariant forall X :: X in r <==> X in cands && X !in rest && Utility(X, db) >= minUtil
      invariant forall X :: X in r ==> r[X] == Utility(X, db)
      decreases |rest|
    {
      var cand :| cand in rest;
      var util := CandidateUtility(cand, db, transMap);
      if util >= minUtil {
        r := r[cand := util];
      }
      rest := rest - {cand};
    }
  }
}
