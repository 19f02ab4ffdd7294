/** Utility lists, the data structure of the HUI-Miner engines (hui.py and
    experiments/hui.py). After pruning and reordering, each transaction is a
    revised transaction; the utility list of an itemset X holds one entry per
    revised transaction containing X: the transaction id, the utility of X
    there (iutil) and the utility of the items after X's last item (rutil). */
module UtilityLists {
  import opened Db

  datatype Entry = Entry(tid: nat, iutil: int, rutil: int)

  /** A revised transaction: its id and its kept items, in the mining order,
      with their utilities. */
  datatype RevTxn = RevTxn(tid: nat, items: seq<Item>, utils: seq<int>)

  /** The sum of the iutil column. */
  function SumIu(ul: seq<Entry>): int {
    if |ul| == 0 then 0 else ul[0].iutil + SumIu(ul[1..])
  }

  /** The sum of the iutil and rutil columns. */
  function SumIuRu(ul: seq<Entry>): int {
    if |ul| == 0 then 0 else ul[0].iutil + ul[0].rutil + SumIuRu(ul[1..])
  }

  predicate Aligned(rt: RevTxn) {
    |rt.items| == |rt.utils|
  }

  predicate AllAligned(rev: seq<RevTxn>) {
    forall k :: 0 <= k < |rev| ==> Aligned(rev[k])
  }

  /** A revised transaction as the bounds need it: aligned, no item twice,
      nonnegative utilities. */
  predicate Proper(rt: RevTxn) {
    Aligned(rt) && Distinct(rt.items) && Nonneg(rt.utils)
  }

  predicate AllProper(rev: seq<RevTxn>) {
    forall k :: 0 <= k < |rev| ==> Proper(rev[k])
  }

  /** Transaction ids strictly increase along the revised database. */
  predicate TidsIncreasing(rev: seq<RevTxn>) {
    forall i, j :: 0 <= i < j < |rev| ==> rev[i].tid < rev[j].tid
  }

  predicate ContainsR(rt: RevTxn, X: seq<Item>) {
    forall x :: x in X ==> x in rt.items
  }

  /** The utility of X in a revised transaction. */
  function UtilInR(rt: RevTxn, X: seq<Item>): int {
    SumOf(Zip(rt.items, rt.utils), X)
  }

  /** The first position of x. */
  function IndexOf(items: seq<Item>, x: Item): (k: nat)
    requires x in items
    ensures k < |items| && items[k] == x
    ensures forall j :: 0 <= j < k ==> items[j] != x
  {
    if items[0] == x then 0 else 1 + IndexOf(items[1..], x)
  }

  /** The utility of the items after x: the rutil of an entry whose last item is x. */
  function Remaining(rt: RevTxn, x: Item): int
    requires x in rt.items && Aligned(rt)
  {
    Sum(rt.utils[IndexOf(rt.items, x) + 1..])
  }

  /** The exact utility list of the itemset X: one entry per revised
      transaction containing X, in database order. */
  function ListFor(rev: seq<RevTxn>, X: seq<Item>): (ul: seq<Entry>)
    requires |X| > 0 && AllAligned(rev)
    ensures |ul| <= |rev|
  {
    if |rev| == 0 then []
    else
      assert AllAligned(rev[1..]) by {
        forall k | 0 <= k < |rev[1..]| ensures Aligned(rev[1..][k]) {
          assert rev[1..][k] == rev[k + 1];
        }
      }
      (if ContainsR(rev[0], X)
       then [Entry(rev[0].tid, UtilInR(rev[0], X), Remaining(rev[0], X[|X| - 1]))]
       else [])
      + ListFor(rev[1..], X)
  }

  /** Positions up to X's last item hold no item of Z: Z lies after X in the
      transaction's order. */
  predicate After(rt: RevTxn, X: seq<Item>, Z: seq<Item>) {
    && |X| > 0 && X[|X| - 1] in rt.items
    && forall k :: 0 <= k <= IndexOf(rt.items, X[|X| - 1]) ==> rt.items[k] !in Z
  }

  // ---------------------------------------------------------------------
  // Lemmas

  lemma {:induction false} SumIuAppend(a: seq<Entry>, b: seq<Entry>)
    ensures SumIu(a + b) == SumIu(a) + SumIu(b)
    ensures SumIuRu(a + b) == SumIuRu(a) + SumIuRu(b)
  {
    if |a| == 0 {
      assert a + b == b;
    } else {
      assert (a + b)[1..] == a[1..] + b;
      SumIuAppend(a[1..], b);
    }
  }

  lemma AllAlignedTail(rev: seq<RevTxn>)
    requires AllAligned(rev) && |rev| > 0
    ensures AllAligned(rev[1..])
  {
    forall k | 0 <= k < |rev[1..]| ensures Aligned(rev[1..][k]) {
      assert rev[1..][k] == rev[k + 1];
    }
  }

  lemma {:induction false} ListForAppend(a: seq<RevTxn>, b: seq<RevTxn>, X: seq<Item>)
    requires |X| > 0 && AllAligned(a) && AllAligned(b)
    ensures AllAligned(a + b)
    ensures ListFor(a + b, X) == ListFor(a, X) + ListFor(b, X)
  {
    assert AllAligned(a + b) by {
      forall k | 0 <= k < |a + b| ensures Aligned((a + b)[k]) {
        if k < |a| { assert (a + b)[k] == a[k]; } else { assert (a + b)[k] == b[k - |a|]; }
      }
    }
    if |a| == 0 {
      assert a + b == b;
    } else {
      assert (a + b)[1..] == a[1..] + b;
      AllAlignedTail(a);
      ListForAppend(a[1..], b, X);
    }
  }

  /** Every entry comes from a revised transaction that contains X. */
  lemma {:induction false} ListForEntries(rev: seq<RevTxn>, X: seq<Item>, e: Entry)
    requires |X| > 0 && AllAligned(rev) && e in ListFor(rev, X)
    ensures exists k :: 0 <= k < |rev| && rev[k].tid == e.tid && ContainsR(rev[k], X)
  {
    AllAlignedTail(rev);
    if e !in ListFor(rev[1..], X) {
      assert ContainsR(rev[0], X) && e.tid == rev[0].tid;
    } else {
      ListForEntries(rev[1..], X, e);
      var k :| 0 <= k < |rev[1..]| && rev[1..][k].tid == e.tid && ContainsR(rev[1..][k], X);
      assert rev[k + 1] == rev[1..][k];
    }
  }

  /** Entry tids strictly increase when the transaction ids do. */
  lemma {:induction false} ListForTidsIncreasing(rev: seq<RevTxn>, X: seq<Item>)
    requires |X| > 0 && AllAligned(rev) && TidsIncreasing(rev)
    ensures forall i, j :: 0 <= i < j < |ListFor(rev, X)| ==> ListFor(rev, X)[i].tid < ListFor(rev, X)[j].tid
  {
    if |rev| > 0 {
      AllAlignedTail(rev);
      var rest := rev[1..];
      assert TidsIncreasing(rest) by {
        forall i, j | 0 <= i < j < |rest| ensures rest[i].tid < rest[j].tid {
          assert rest[i] == rev[i + 1] && rest[j] == rev[j + 1];
        }
      }
      ListForTidsIncreasing(rest, X);
      forall k | 0 <= k < |rest| ensures rest[k].tid > rev[0].tid {
        assert rest[k] == rev[k + 1];
      }
      ListForTidsAbove(rest, X, rev[0].tid);
      var head := if ContainsR(rev[0], X)
        then [Entry(rev[0].tid, UtilInR(rev[0], X), Remaining(rev[0], X[|X| - 1]))]
        else [];
      assert ListFor(rev, X) == head + ListFor(rest, X);
      TidsPrepend(head, ListFor(rest, X), rev[0].tid);
    }
  }

  /** Entries of one tid before entries of greater, increasing tids keep
      the tids increasing. */
  lemma TidsPrepend(head: seq<Entry>, tail: seq<Entry>, t: int)
    requires |head| <= 1 && forall e :: e in head ==> e.tid == t
    requires forall e :: e in tail ==> e.tid > t
    requires forall i, j :: 0 <= i < j < |tail| ==> tail[i].tid < tail[j].tid
    ensures forall i, j :: 0 <= i < j < |head + tail| ==> (head + tail)[i].tid < (head + tail)[j].tid
  {
    var ul := head + tail;
    forall i, j | 0 <= i < j < |ul| ensures ul[i].tid < ul[j].tid {
      if |head| == 1 {
        assert ul[j] == tail[j - 1] && ul[j] in tail;
        if i == 0 {
          assert ul[0] in head;
        } else {
          assert ul[i] == tail[i - 1];
        }
      } else {
        assert ul[i] == tail[i] && ul[j] == tail[j];
      }
    }
  }

  /** Every entry of the list has a tid greater than t when every
      transaction does. */
  lemma ListForTidsAbove(rev: seq<RevTxn>, X: seq<Item>, t: int)
    requires |X| > 0 && AllAligned(rev)
    requires forall k :: 0 <= k < |rev| ==> rev[k].tid > t
    ensures forall e :: e in ListFor(rev, X) ==> e.tid > t
  {
    forall e | e in ListFor(rev, X) ensures e.tid > t {
      ListForEntries(rev, X, e);
    }
  }

  /** The list is empty exactly when no revised transaction contains X. */
  lemma {:induction false} ListForEmptyIff(rev: seq<RevTxn>, X: seq<Item>)
    requires |X| > 0 && AllAligned(rev)
    ensures ListFor(rev, X) == [] <==> forall k :: 0 <= k < |rev| ==> !ContainsR(rev[k], X)
  {
    if |rev| > 0 {
      AllAlignedTail(rev);
      ListForEmptyIff(rev[1..], X);
      assert forall k :: 1 <= k < |rev| ==> rev[1..][k - 1] == rev[k];
    }
  }

  lemma RemainingNonneg(rt: RevTxn, x: Item)
    requires Proper(rt) && x in rt.items
    ensures Remaining(rt, x) >= 0
  {
    var s := rt.utils[IndexOf(rt.items, x) + 1..];
    assert Nonneg(s) by {
      forall k | 0 <= k < |s| ensures s[k] >= 0 {
        assert s[k] == rt.utils[IndexOf(rt.items, x) + 1 + k];
      }
    }
    SumNonneg(s);
  }

  /** One entry's iutil + rutil bounds the utility of every extension of X by
      items placed after X's last item: the utility-list pruning bound. */
  lemma EntryBound(rt: RevTxn, X: seq<Item>, Z: seq<Item>)
    requires Proper(rt) && |X| > 0 && Distinct(Z)
    requires ContainsR(rt, X + Z) && After(rt, X, Z)
    ensures UtilInR(rt, X + Z) <= UtilInR(rt, X) + Remaining(rt, X[|X| - 1])
  {
    var last := X[|X| - 1];
    assert last in X + Z;
    var p := IndexOf(rt.items, last) + 1;
    SumOfAppend(Zip(rt.items, rt.utils), X, Z);
    assert forall z :: z in Z ==> z in X + Z;
    SumOfIsMasked(rt.items, rt.utils, Z);
    forall k | 0 <= k < p ensures rt.items[k] !in Elems(Z) {
    }
    MaskedSuffix(rt.items, rt.utils, Elems(Z), p);
    var us := rt.utils[p..];
    assert Nonneg(us) by {
      forall k | 0 <= k < |us| ensures us[k] >= 0 {
        assert us[k] == rt.utils[p + k];
      }
    }
    MaskedBounds(rt.items[p..], us, Elems(Z));
  }

  /** The list of X bounds, through its iutil + rutil sum, the utility of every
      extension of X by later items. */
  lemma {:induction false} ListBound(rev: seq<RevTxn>, X: seq<Item>, Z: seq<Item>)
    requires AllProper(rev) && |X| > 0 && Distinct(Z)
    requires forall k :: 0 <= k < |rev| && ContainsR(rev[k], X + Z) ==> After(rev[k], X, Z)
    ensures AllAligned(rev)
    ensures SumIu(ListFor(rev, X + Z)) <= SumIuRu(ListFor(rev, X))
  {
    assert AllAligned(rev) by {
      forall k | 0 <= k < |rev| ensures Aligned(rev[k]) {
        assert Proper(rev[k]);
      }
    }
    if |rev| > 0 {
      var rt := rev[0];
      assert Proper(rt);
      var rest := rev[1..];
      assert AllProper(rest) by {
        forall k | 0 <= k < |rest| ensures Proper(rest[k]) {
          assert rest[k] == rev[k + 1];
        }
      }
      forall k | 0 <= k < |rest| && ContainsR(rest[k], X + Z) ensures After(rest[k], X, Z) {
        assert rest[k] == rev[k + 1];
      }
      ListBound(rest, X, Z);
      assert |X + Z| > 0 && (X + Z)[|X + Z| - 1] in X + Z;
      var hx := if ContainsR(rt, X) then [Entry(rt.tid, UtilInR(rt, X), Remaining(rt, X[|X| - 1]))] else [];
      var hz := if ContainsR(rt, X + Z)
        then [Entry(rt.tid, UtilInR(rt, X + Z), Remaining(rt, (X + Z)[|X + Z| - 1]))] else [];
      assert ListFor(rev, X) == hx + ListFor(rest, X);
      assert ListFor(rev, X + Z) == hz + ListFor(rest, X + Z);
      SumIuAppend(hx, ListFor(rest, X));
      SumIuAppend(hz, ListFor(rest, X + Z));
      if ContainsR(rt, X + Z) {
        assert ContainsR(rt, X) by {
          forall x | x in X ensures x in rt.items {
            assert x in X + Z;
          }
        }
        EntryBound(rt, X, Z);
      } else if ContainsR(rt, X) {
        SumOfNonneg(rt.items, rt.utils, X);
        assert X[|X| - 1] in X;
        RemainingNonneg(rt, X[|X| - 1]);
      }
    }
  }

  // ---------------------------------------------------------------------
  // The entries appended item by item from the revised transactions

  /** The entries for x from the first n positions of a revised transaction. */
  function OccUpTo(rt: RevTxn, x: Item, n: nat): seq<Entry>
    requires Aligned(rt) && n <= |rt.items|
  {
    if n == 0 then []
    else
      OccUpTo(rt, x, n - 1)
      + (if rt.items[n - 1] == x then [Entry(rt.tid, rt.utils[n - 1], Sum(rt.utils[n..]))] else [])
  }

  /** The entries for x over the revised database, in the order they are appended. */
  function Occurrences(rev: seq<RevTxn>, x: Item): seq<Entry>
    requires AllAligned(rev)
  {
    if |rev| == 0 then []
    else
      var last := rev[|rev| - 1];
      assert Aligned(last);
      Occurrences(rev[..|rev| - 1], x) + OccUpTo(last, x, |last.items|)
  }

  function ItemsOfRev(rev: seq<RevTxn>): set<Item> {
    set k, x | 0 <= k < |rev| && x in rev[k].items :: x
  }


  lemma AllAlignedPrefix(rev: seq<RevTxn>, n: nat)
    requires AllAligned(rev) && n <= |rev|
    ensures AllAligned(rev[..n])
  {
    forall k | 0 <= k < n ensures Aligned(rev[..n][k]) {
      assert rev[..n][k] == rev[k];
    }
  }

  lemma OccurrencesSnoc(rev: seq<RevTxn>, r: nat)
    requires AllAligned(rev) && r < |rev|
    ensures AllAligned(rev[..r]) && AllAligned(rev[..r + 1]) && Aligned(rev[r])
    ensures forall x :: Occurrences(rev[..r + 1], x) == Occurrences(rev[..r], x) + OccUpTo(rev[r], x, |rev[r].items|)
  {
    AllAlignedPrefix(rev, r);
    AllAlignedPrefix(rev, r + 1);
    assert rev[..r + 1][..r] == rev[..r];
    assert rev[..r + 1][r] == rev[r];
  }

  lemma {:induction false} OccUpToEmpty(rt: RevTxn, x: Item, n: nat)
    requires Aligned(rt) && n <= |rt.items|
    ensures OccUpTo(rt, x, n) == [] <==> x !in rt.items[..n]
  {
    if n > 0 {
      OccUpToEmpty(rt, x, n - 1);
      assert rt.items[..n] == rt.items[..n - 1] + [rt.items[n - 1]];
    }
  }

  lemma {:induction false} OccurrencesEmpty(rev: seq<RevTxn>, x: Item)
    requires AllAligned(rev)
    ensures Occurrences(rev, x) == [] <==> x !in ItemsOfRev(rev)
  {
    if |rev| > 0 {
      var n := |rev| - 1;
      var last := rev[n];
      assert rev[..n + 1] == rev;
      ItemsOfRevSnoc(rev, n);
      OccurrencesEmpty(rev[..n], x);
      OccUpToEmpty(last, x, |last.items|);
      assert last.items[..|last.items|] == last.items;
    }
  }

  lemma ItemsOfRevSnoc(rev: seq<RevTxn>, r: nat)
    requires r < |rev|
    ensures forall y :: y in ItemsOfRev(rev[..r + 1]) <==> y in ItemsOfRev(rev[..r]) || y in rev[r].items
  {
    forall y ensures y in ItemsOfRev(rev[..r + 1]) <==> y in ItemsOfRev(rev[..r]) || y in rev[r].items {
      if y in ItemsOfRev(rev[..r + 1]) {
        var k :| 0 <= k < r + 1 && y in rev[..r + 1][k].items;
        if k < r { assert rev[..r + 1][k] == rev[..r][k]; }
      }
      if y in ItemsOfRev(rev[..r]) {
        var k :| 0 <= k < r && y in rev[..r][k].items;
        assert rev[..r + 1][k] == rev[..r][k];
      }
      if y in rev[r].items {
        assert rev[..r + 1][r] == rev[r];
      }
    }
  }

  /** In a transaction without repeated items, the first n positions give x
      at most the one entry of its position. */
  lemma {:induction false} OccUpToDistinct(rt: RevTxn, x: Item, n: nat)
    requires Aligned(rt) && Distinct(rt.items) && n <= |rt.items|
    ensures x in rt.items[..n] ==> x in rt.items && IndexOf(rt.items, x) < n
    ensures OccUpTo(rt, x, n) == if x in rt.items[..n]
      then [Entry(rt.tid, rt.utils[IndexOf(rt.items, x)], Sum(rt.utils[IndexOf(rt.items, x) + 1..]))]
      else []
  {
    if n > 0 {
      OccUpToDistinct(rt, x, n - 1);
      var y := rt.items[n - 1];
      assert rt.items[..n] == rt.items[..n - 1] + [y];
      if y == x {
        assert x !in rt.items[..n - 1];
        assert IndexOf(rt.items, x) == n - 1;
        assert OccUpTo(rt, x, n) == [] + [Entry(rt.tid, rt.utils[n - 1], Sum(rt.utils[n..]))];
      } else {
        assert x in rt.items[..n] <==> x in rt.items[..n - 1];
        assert OccUpTo(rt, x, n) == OccUpTo(rt, x, n - 1) + [];
      }
    }
  }

  /** The one entry of x in a transaction that holds it once. */
  lemma SingleEntry(rt: RevTxn, x: Item)
    requires Aligned(rt) && Distinct(rt.items) && AllAligned([rt])
    ensures ListFor([rt], [x]) == if x in rt.items
      then [Entry(rt.tid, rt.utils[IndexOf(rt.items, x)], Sum(rt.utils[IndexOf(rt.items, x) + 1..]))]
      else []
  {
    ZipIndexOf(rt.items, rt.utils, x);
    SumOfSingle(Zip(rt.items, rt.utils), x);
    assert x in [x];
    assert [rt][1..] == [];
  }

  lemma SumOfSingle(d: map<Item, int>, x: Item)
    ensures SumOf(d, [x]) == Get(d, x)
  {
    assert [x][1..] == [];
  }

  lemma ZipIndexOf(items: seq<Item>, utils: seq<int>, x: Item)
    requires |items| == |utils| && Distinct(items)
    ensures x in items ==> x in Zip(items, utils) && Zip(items, utils)[x] == utils[IndexOf(items, x)]
  {
    if x in items {
      ZipAt(items, utils, IndexOf(items, x));
    }
  }

  predicate AllDistinct(rev: seq<RevTxn>) {
    forall k :: 0 <= k < |rev| ==> Distinct(rev[k].items)
  }

  /** The entries step 4 appends for x form the exact list of [x]. */
  lemma {:induction false} OccurrencesIsListFor(rev: seq<RevTxn>, x: Item)
    requires AllAligned(rev) && AllDistinct(rev)
    ensures Occurrences(rev, x) == ListFor(rev, [x])
  {
    if |rev| > 0 {
      var n := |rev| - 1;
      var init := rev[..n];
      var last := rev[n];
      AllAlignedPrefix(rev, n);
      assert AllDistinct(init) by {
        forall k | 0 <= k < n ensures Distinct(init[k].items) {
          assert init[k] == rev[k];
        }
      }
      OccurrencesIsListFor(init, x);
      assert Distinct(last.items);
      OccUpToIsListFor(last, x);
      assert rev == init + [last];
      ListForAppend(init, [last], [x]);
    }
  }

  /** The entries appended for x from one transaction that holds it at most
      once are its exact list there. */
  lemma OccUpToIsListFor(rt: RevTxn, x: Item)
    requires Aligned(rt) && Distinct(rt.items)
    ensures AllAligned([rt]) && OccUpTo(rt, x, |rt.items|) == ListFor([rt], [x])
  {
    assert AllAligned([rt]);
    SingleEntry(rt, x);
    OccUpToDistinct(rt, x, |rt.items|);
    assert rt.items[..|rt.items|] == rt.items;
  }

  /** A subset of an itemset that occurs somewhere occurs too. */
  lemma ListForSub(rev: seq<RevTxn>, X: seq<Item>, Y: seq<Item>)
    requires |X| > 0 && |Y| > 0 && AllAligned(rev)
    requires forall x :: x in X ==> x in Y
    requires ListFor(rev, Y) != []
    ensures ListFor(rev, X) != []
  {
    ListForEmptyIff(rev, Y);
    ListForEmptyIff(rev, X);
    var k :| 0 <= k < |rev| && ContainsR(rev[k], Y);
    assert ContainsR(rev[k], X);
  }
}
