/** The data model shared by the four mining engines: transactions whose items
    carry utilities, and the two sums every engine is specified against, the
    utility of an itemset and its transaction-weighted utility (TWU). */
module Db {

  type Item = int

  /** A parsed transaction: its items in input order, their utilities in the
      same order, and the transaction total that came with the line (an
      external weight, not required to equal the sum of the utilities). */
  datatype Txn = Txn(items: seq<Item>, utils: seq<int>, total: int)

  /** A result, or the `KeyError` an engine raises instead. */
  datatype Option<T> = None | Some(value: T)

  /** `dict(zip(items, utils))`: pairs up to the shorter of the two sequences,
      and a later occurrence of an item overrides an earlier one. */
  function Zip(items: seq<Item>, utils: seq<int>): (d: map<Item, int>)
    ensures |items| == |utils| ==> forall i :: i in d <==> i in items
  {
    if |items| == 0 || |utils| == 0 then map[]
    else map[items[0] := utils[0]] + Zip(items[1..], utils[1..])
  }

  /** The item -> utility dictionary of a transaction. */
  function Dict(t: Txn): map<Item, int> {
    Zip(t.items, t.utils)
  }

  function Get(d: map<Item, int>, i: Item): int {
    if i in d then d[i] else 0
  }

  function Elems(X: seq<Item>): set<Item> {
    set x | x in X
  }

  predicate Distinct(s: seq<Item>) {
    forall i, j :: 0 <= i < j < |s| ==> s[i] != s[j]
  }

  /** Every item of X is a key of the transaction's dictionary. */
  predicate Contains(t: Txn, X: seq<Item>) {
    forall i :: i in X ==> i in Dict(t)
  }

  /** `sum(d[item] for item in X)`. */
  function SumOf(d: map<Item, int>, X: seq<Item>): int {
    if |X| == 0 then 0 else Get(d, X[0]) + SumOf(d, X[1..])
  }

  /** The utility of X in one transaction. */
  function UtilIn(t: Txn, X: seq<Item>): int {
    SumOf(Dict(t), X)
  }

  function Sum(s: seq<int>): int {
    if |s| == 0 then 0 else s[0] + Sum(s[1..])
  }

  /** Utility(X, db): over the transactions containing every item of X, the
      sum of X's utilities in that transaction. */
  function Utility(X: seq<Item>, db: seq<Txn>): int {
    if |db| == 0 then 0
    else Utility(X, db[..|db| - 1])
         + (if Contains(db[|db| - 1], X) then UtilIn(db[|db| - 1], X) else 0)
  }

  /** One transaction more: its utility of X is added when it holds X. */
  lemma UtilityStep(X: seq<Item>, db: seq<Txn>, n: nat)
    requires n < |db|
    ensures Utility(X, db[..n + 1]) == Utility(X, db[..n]) + (if Contains(db[n], X) then UtilIn(db[n], X) else 0)
  {
    assert db[..n + 1][..n] == db[..n];
  }

  /** TWU(X, db): over the same transactions, the sum of their totals. */
  function TWU(X: seq<Item>, db: seq<Txn>): int {
    if |db| == 0 then 0
    else TWU(X, db[..|db| - 1]) + (if Contains(db[|db| - 1], X) then db[|db| - 1].total else 0)
  }

  predicate Occurs(X: seq<Item>, db: seq<Txn>) {
    exists k :: 0 <= k < |db| && Contains(db[k], X)
  }

  /** TWU accumulated once per occurrence of the item in a line, as the
      experiment scripts do (`for item in items: TWU[item] += total`). */
  function OccurrenceTwu(i: Item, db: seq<Txn>): int {
    if |db| == 0 then 0
    else OccurrenceTwu(i, db[..|db| - 1]) + Count(db[|db| - 1].items, i) * db[|db| - 1].total
  }

  function Count(s: seq<Item>, i: Item): nat {
    if |s| == 0 then 0 else (if s[0] == i then 1 else 0) + Count(s[1..], i)
  }

  function Min(a: int, b: int): int {
    if a <= b then a else b
  }

  /** `seen` followed by the items of s it lacks, in order of first
      appearance: how a Python dictionary orders keys inserted from s. */
  function AddNew(seen: seq<Item>, s: seq<Item>): (r: seq<Item>)
    ensures forall x :: x in r <==> x in seen || x in s
    ensures Distinct(seen) ==> Distinct(r)
    ensures |seen| <= |r| && r[..|seen|] == seen
  {
    if |s| == 0 then seen
    else
      var r0 := AddNew(seen, s[..|s| - 1]);
      assert forall x :: x in s <==> x in s[..|s| - 1] || x == s[|s| - 1];
      if s[|s| - 1] in r0 then r0 else r0 + [s[|s| - 1]]
  }

  /** The keys of `dict(zip(items, utils))` in iteration order. */
  function DictKeys(t: Txn): (r: seq<Item>)
    ensures forall x :: x in r <==> x in Dict(t)
    ensures Distinct(r)
  {
    ZipKeys(t.items, t.utils);
    AddNew([], t.items[..Min(|t.items|, |t.utils|)])
  }

  /** One utility per item and no item twice in the line. */
  predicate Simple(t: Txn) {
    |t.items| == |t.utils| && Distinct(t.items)
  }

  predicate SimpleDb(db: seq<Txn>) {
    forall k :: 0 <= k < |db| ==> Simple(db[k])
  }

  predicate Nonneg(s: seq<int>) {
    forall k :: 0 <= k < |s| ==> s[k] >= 0
  }

  /** The conditions under which the engines' bounds are valid: a simple
      line, nonnegative utilities, and a total no smaller than the sum of the
      item utilities. */
  predicate WellFormed(t: Txn) {
    && Simple(t)
    && Nonneg(t.utils)
    && t.total >= Sum(t.utils)
  }

  predicate WellFormedDb(db: seq<Txn>) {
    forall k :: 0 <= k < |db| ==> WellFormed(db[k])
  }

  /** A simple line with no negative utility: what the soundness of the
      experiments' HUI-Miner needs, which drops an extension whose
      utilities sum below zero. */
  predicate Plain(t: Txn) {
    Simple(t) && Nonneg(t.utils)
  }

  predicate PlainDb(db: seq<Txn>) {
    forall k :: 0 <= k < |db| ==> Plain(db[k])
  }

  /** A well-formed database is plain. */
  lemma WellFormedPlain(db: seq<Txn>)
    requires WellFormedDb(db)
    ensures PlainDb(db)
  {
    forall k | 0 <= k < |db| ensures Plain(db[k]) {
      assert WellFormed(db[k]);
    }
  }

  /** The sum of the utilities at the positions whose item lies in S. */
  function MaskedSum(items: seq<Item>, utils: seq<int>, S: set<Item>): int {
    if |items| == 0 || |utils| == 0 then 0
    else (if items[0] in S then utils[0] else 0) + MaskedSum(items[1..], utils[1..], S)
  }

  // ---------------------------------------------------------------------
  // Distinctness

  lemma DistinctTail(s: seq<Item>)
    requires |s| > 0
    ensures Distinct(s) ==> Distinct(s[1..]) && s[0] !in s[1..]
  {
    if Distinct(s) {
      forall a, b | 0 <= a < b < |s[1..]| ensures s[1..][a] != s[1..][b] {
        assert s[1..][a] == s[a + 1] && s[1..][b] == s[b + 1];
      }
      forall j | 0 <= j < |s[1..]| ensures s[1..][j] != s[0] {
        assert s[1..][j] == s[j + 1];
      }
    }
  }

  lemma DistinctInit(s: seq<Item>)
    requires |s| > 0
    ensures Distinct(s) ==> Distinct(s[..|s| - 1]) && s[|s| - 1] !in s[..|s| - 1]
  {
  }

  lemma {:induction false} DistinctCount(s: seq<Item>, x: Item)
    requires Distinct(s)
    ensures multiset(s)[x] <= 1
  {
    if |s| > 0 {
      DistinctTail(s);
      DistinctCount(s[1..], x);
      assert s == [s[0]] + s[1..];
      assert multiset(s) == multiset{s[0]} + multiset(s[1..]);
    }
  }

  lemma RepeatCount(s: seq<Item>, i: int, j: int)
    requires 0 <= i < j < |s| && s[i] == s[j]
    ensures multiset(s)[s[i]] >= 2
  {
    assert s == s[..j] + s[j..];
    assert s[..j][i] == s[i];
    assert s[j..][0] == s[i];
    assert multiset(s) == multiset(s[..j]) + multiset(s[j..]);
  }

  /** A rearrangement of a sequence without repeats has no repeats. */
  lemma DistinctPerm(a: seq<Item>, b: seq<Item>)
    requires multiset(a) == multiset(b) && Distinct(b)
    ensures Distinct(a)
  {
    forall i, j | 0 <= i < j < |a| ensures a[i] != a[j] {
      if a[i] == a[j] {
        RepeatCount(a, i, j);
        DistinctCount(b, a[i]);
      }
    }
  }

  // ---------------------------------------------------------------------
  // Lemmas about a single transaction

  lemma {:induction false} ZipKeys(items: seq<Item>, utils: seq<int>)
    ensures forall x :: x in Zip(items, utils) <==> x in items[..Min(|items|, |utils|)]
  {
    if |items| > 0 && |utils| > 0 {
      ZipKeys(items[1..], utils[1..]);
      var n := Min(|items|, |utils|);
      assert items[..n] == [items[0]] + items[1..][..Min(|items| - 1, |utils| - 1)];
    }
  }

  /** Under distinct items the dictionary maps each item to its own utility. */
  lemma {:induction false} ZipAt(items: seq<Item>, utils: seq<int>, k: int)
    requires |items| == |utils| && Distinct(items) && 0 <= k < |items|
    ensures items[k] in Zip(items, utils) && Zip(items, utils)[items[k]] == utils[k]
  {
    if k > 0 {
      assert Distinct(items[1..]) by {
        forall a, b | 0 <= a < b < |items[1..]| ensures items[1..][a] != items[1..][b] {
          assert items[1..][a] == items[a + 1] && items[1..][b] == items[b + 1];
        }
      }
      ZipAt(items[1..], utils[1..], k - 1);
      assert items[k] == items[1..][k - 1];
    } else {
      forall j | 0 <= j < |items[1..]| ensures items[1..][j] != items[0] {
        assert items[1..][j] == items[j + 1];
      }
      assert items[0] !in Zip(items[1..], utils[1..]);
    }
  }

  lemma {:induction false} MaskedEmpty(items: seq<Item>, utils: seq<int>, S: set<Item>)
    requires forall k :: 0 <= k < |items| ==> items[k] !in S
    ensures MaskedSum(items, utils, S) == 0
  {
    if |items| > 0 && |utils| > 0 {
      MaskedEmpty(items[1..], utils[1..], S);
    }
  }

  lemma {:induction false} MaskedSplit(items: seq<Item>, utils: seq<int>, A: set<Item>, B: set<Item>)
    requires A !! B
    ensures MaskedSum(items, utils, A + B) == MaskedSum(items, utils, A) + MaskedSum(items, utils, B)
  {
    if |items| > 0 && |utils| > 0 {
      MaskedSplit(items[1..], utils[1..], A, B);
    }
  }

  /** Masking with a larger set never loses weight when utilities are nonnegative. */
  lemma {:induction false} MaskedMono(items: seq<Item>, utils: seq<int>, A: set<Item>, B: set<Item>)
    requires A <= B
    requires Nonneg(utils)
    ensures MaskedSum(items, utils, A) <= MaskedSum(items, utils, B)
  {
    if |items| > 0 && |utils| > 0 {
      MaskedMono(items[1..], utils[1..], A, B);
    }
  }

  lemma {:induction false} MaskedBounds(items: seq<Item>, utils: seq<int>, S: set<Item>)
    requires |items| == |utils|
    requires Nonneg(utils)
    ensures 0 <= MaskedSum(items, utils, S) <= Sum(utils)
  {
    if |items| > 0 {
      MaskedBounds(items[1..], utils[1..], S);
    }
  }

  lemma {:induction false} MaskedSingle(items: seq<Item>, utils: seq<int>, x: Item)
    requires |items| == |utils| && Distinct(items) && x in items
    ensures MaskedSum(items, utils, {x}) == Zip(items, utils)[x]
  {
    var k :| 0 <= k < |items| && items[k] == x;
    ZipAt(items, utils, k);
    MaskedSingleAt(items, utils, k);
  }

  lemma {:induction false} MaskedSingleAt(items: seq<Item>, utils: seq<int>, k: int)
    requires |items| == |utils| && Distinct(items) && 0 <= k < |items|
    ensures MaskedSum(items, utils, {items[k]}) == utils[k]
  {
    var x := items[k];
    if k == 0 {
      MaskedEmpty(items[1..], utils[1..], {x});
    } else {
      assert items[0] != x;
      assert Distinct(items[1..]) by {
        forall a, b | 0 <= a < b < |items[1..]| ensures items[1..][a] != items[1..][b] {
          assert items[1..][a] == items[a + 1] && items[1..][b] == items[b + 1];
        }
      }
      assert items[1..][k - 1] == x;
      MaskedSingleAt(items[1..], utils[1..], k - 1);
    }
  }

  /** The utility of a distinct itemset contained in a transaction with
      distinct items is the masked sum over the positions holding its items. */
  lemma {:induction false} SumOfIsMasked(items: seq<Item>, utils: seq<int>, X: seq<Item>)
    requires |items| == |utils| && Distinct(items) && Distinct(X)
    requires forall x :: x in X ==> x in items
    ensures SumOf(Zip(items, utils), X) == MaskedSum(items, utils, Elems(X))
  {
    if |X| == 0 {
      assert Elems(X) == {};
      MaskedEmpty(items, utils, {});
    } else {
      var rest := X[1..];
      assert Distinct(rest) by {
        forall a, b | 0 <= a < b < |rest| ensures rest[a] != rest[b] {
          assert rest[a] == X[a + 1] && rest[b] == X[b + 1];
        }
      }
      forall j | 0 <= j < |rest| ensures rest[j] != X[0] {
        assert rest[j] == X[j + 1];
      }
      assert Elems(X) == {X[0]} + Elems(rest) by {
        forall y ensures y in Elems(X) <==> y in {X[0]} + Elems(rest) {
          if y in X && y != X[0] {
            var j :| 0 <= j < |X| && X[j] == y;
            assert rest[j - 1] == y;
          }
        }
      }
      SumOfIsMasked(items, utils, rest);
      MaskedSplit(items, utils, {X[0]}, Elems(rest));
      MaskedSingle(items, utils, X[0]);
    }
  }

  lemma {:induction false} SumNonneg(s: seq<int>)
    requires Nonneg(s)
    ensures Sum(s) >= 0
  {
    if |s| > 0 {
      SumNonneg(s[1..]);
    }
  }

  lemma {:induction false} ZipNonneg(items: seq<Item>, utils: seq<int>, x: Item)
    requires Nonneg(utils)
    ensures Get(Zip(items, utils), x) >= 0
  {
    if |items| > 0 && |utils| > 0 {
      ZipNonneg(items[1..], utils[1..], x);
    }
  }

  lemma {:induction false} SumOfNonneg(items: seq<Item>, utils: seq<int>, X: seq<Item>)
    requires Nonneg(utils)
    ensures SumOf(Zip(items, utils), X) >= 0
  {
    if |X| > 0 {
      ZipNonneg(items, utils, X[0]);
      SumOfNonneg(items, utils, X[1..]);
    }
  }

  /** Positions up to p hold no item of S, so only the suffix counts. */
  lemma {:induction false} MaskedSuffix(items: seq<Item>, utils: seq<int>, S: set<Item>, p: nat)
    requires |items| == |utils| && p <= |items|
    requires forall k :: 0 <= k < p ==> items[k] !in S
    ensures MaskedSum(items, utils, S) == MaskedSum(items[p..], utils[p..], S)
  {
    if p > 0 {
      MaskedSuffix(items[1..], utils[1..], S, p - 1);
      assert items[1..][p - 1..] == items[p..];
      assert utils[1..][p - 1..] == utils[p..];
    }
  }

  lemma {:induction false} SumOfAppend(d: map<Item, int>, X: seq<Item>, Y: seq<Item>)
    ensures SumOf(d, X + Y) == SumOf(d, X) + SumOf(d, Y)
  {
    if |X| > 0 {
      assert (X + Y)[1..] == X[1..] + Y;
      SumOfAppend(d, X[1..], Y);
    } else {
      assert X + Y == Y;
    }
  }

  /** One transaction's share of a distinct itemset never exceeds its total. */
  lemma UtilInBounds(t: Txn, X: seq<Item>)
    requires WellFormed(t) && Distinct(X) && Contains(t, X)
    ensures 0 <= UtilIn(t, X) <= t.total
  {
    SumOfIsMasked(t.items, t.utils, X);
    MaskedBounds(t.items, t.utils, Elems(X));
  }

  // ---------------------------------------------------------------------
  // Lemmas about the database

  /** TWU upper-bounds the utility: the Two-Phase correctness basis. */
  lemma {:induction false} UtilityAtMostTwu(X: seq<Item>, db: seq<Txn>)
    requires WellFormedDb(db) && Distinct(X)
    ensures 0 <= Utility(X, db) <= TWU(X, db)
  {
    if |db| > 0 {
      var last := db[|db| - 1];
      assert WellFormed(last);
      UtilityAtMostTwu(X, db[..|db| - 1]);
      if Contains(last, X) {
        UtilInBounds(last, X);
      }
    }
  }

  predicate TotalsNonneg(db: seq<Txn>) {
    forall k :: 0 <= k < |db| ==> db[k].total >= 0
  }

  lemma WellFormedTotals(db: seq<Txn>)
    requires WellFormedDb(db)
    ensures TotalsNonneg(db)
  {
    forall k | 0 <= k < |db| ensures db[k].total >= 0 {
      assert WellFormed(db[k]);
      MaskedBounds(db[k].items, db[k].utils, {});
    }
  }

  /** Adding items to an itemset can only lower its TWU (totals nonnegative). */
  lemma {:induction false} TwuAntiMonotone(X: seq<Item>, Y: seq<Item>, db: seq<Txn>)
    requires TotalsNonneg(db)
    requires forall x :: x in X ==> x in Y
    ensures TWU(Y, db) <= TWU(X, db)
  {
    if |db| > 0 {
      TwuAntiMonotone(X, Y, db[..|db| - 1]);
    }
  }

  lemma {:induction false} TwuNonneg(X: seq<Item>, db: seq<Txn>)
    requires TotalsNonneg(db)
    ensures TWU(X, db) >= 0
  {
    if |db| > 0 {
      TwuNonneg(X, db[..|db| - 1]);
    }
  }

  /** An itemset that occurs in no transaction has no utility and no TWU. */
  lemma {:induction false} AbsentIsZero(X: seq<Item>, db: seq<Txn>)
    requires !Occurs(X, db)
    ensures Utility(X, db) == 0 && TWU(X, db) == 0
  {
    if |db| > 0 {
      var init := db[..|db| - 1];
      forall k | 0 <= k < |init| ensures !Contains(init[k], X) {
        assert init[k] == db[k];
      }
      AbsentIsZero(X, init);
    }
  }

  lemma OccursSnoc(X: seq<Item>, db: seq<Txn>)
    requires |db| > 0
    ensures Occurs(X, db) <==> Occurs(X, db[..|db| - 1]) || Contains(db[|db| - 1], X)
  {
    var init := db[..|db| - 1];
    if Occurs(X, db) && !Contains(db[|db| - 1], X) {
      var k :| 0 <= k < |db| && Contains(db[k], X);
      assert init[k] == db[k];
    }
    if Occurs(X, init) {
      var k :| 0 <= k < |init| && Contains(init[k], X);
      assert init[k] == db[k];
    }
  }

  lemma OccursAntiMonotone(X: seq<Item>, Y: seq<Item>, db: seq<Txn>)
    requires Occurs(Y, db)
    requires forall x :: x in X ==> x in Y
    ensures Occurs(X, db)
  {
    var k :| 0 <= k < |db| && Contains(db[k], Y);
    assert Contains(db[k], X);
  }

  /** Per-occurrence TWU equals the itemset TWU of a singleton when no line
      repeats an item. */
  lemma {:induction false} OccurrenceTwuIsTwu(i: Item, db: seq<Txn>)
    requires WellFormedDb(db)
    ensures OccurrenceTwu(i, db) == TWU([i], db)
  {
    if |db| > 0 {
      var last := db[|db| - 1];
      assert WellFormed(last);
      OccurrenceTwuIsTwu(i, db[..|db| - 1]);
      CountDistinct(last.items, i);
      assert Contains(last, [i]) <==> i in last.items;
    }
  }

  lemma {:induction false} CountDistinct(s: seq<Item>, i: Item)
    requires Distinct(s)
    ensures Count(s, i) == if i in s then 1 else 0
  {
    if |s| > 0 {
      assert Distinct(s[1..]) by {
        forall a, b | 0 <= a < b < |s[1..]| ensures s[1..][a] != s[1..][b] {
          assert s[1..][a] == s[a + 1] && s[1..][b] == s[b + 1];
        }
      }
      CountDistinct(s[1..], i);
      if s[0] == i {
        forall j | 0 <= j < |s[1..]| ensures s[1..][j] != i {
          assert s[1..][j] == s[j + 1];
        }
      }
      assert i in s <==> s[0] == i || i in s[1..];
    }
  }

  lemma {:induction false} SumOfAgree(d1: map<Item, int>, d2: map<Item, int>, X: seq<Item>)
    requires forall x :: x in X ==> Get(d1, x) == Get(d2, x)
    ensures SumOf(d1, X) == SumOf(d2, X)
  {
    if |X| > 0 {
      assert X[0] in X;
      assert forall x :: x in X[1..] ==> x in X;
      SumOfAgree(d1, d2, X[1..]);
    }
  }

  lemma SimpleInit(db: seq<Txn>)
    requires SimpleDb(db) && |db| > 0
    ensures SimpleDb(db[..|db| - 1]) && Simple(db[|db| - 1])
  {
    var init := db[..|db| - 1];
    forall k | 0 <= k < |init| ensures Simple(init[k]) {
      assert init[k] == db[k];
    }
  }

  lemma WellFormedInit(db: seq<Txn>)
    requires WellFormedDb(db) && |db| > 0
    ensures WellFormedDb(db[..|db| - 1]) && WellFormed(db[|db| - 1])
  {
    var init := db[..|db| - 1];
    forall k | 0 <= k < |init| ensures WellFormed(init[k]) {
      assert init[k] == db[k];
    }
  }

  lemma PlainInit(db: seq<Txn>)
    requires PlainDb(db) && |db| > 0
    ensures PlainDb(db[..|db| - 1]) && Plain(db[|db| - 1])
  {
    var init := db[..|db| - 1];
    forall k | 0 <= k < |init| ensures Plain(init[k]) {
      assert init[k] == db[k];
    }
  }
}
