/** Python's `sorted`/`list.sort` as the engines use them: a stable sort by a
    key (every key the engines use is an integer or a pair of integers,
    compared lexicographically), and the lexicographic order of item tuples. */
module Ordering {

  /** Lexicographic `<=` on a pair of integers. */
  predicate KeyLe(a: (int, int), b: (int, int)) {
    a.0 < b.0 || (a.0 == b.0 && a.1 <= b.1)
  }

  /** Lexicographic `<` on a pair of integers. */
  predicate KeyLt(a: (int, int), b: (int, int)) {
    a.0 < b.0 || (a.0 == b.0 && a.1 < b.1)
  }

  predicate SortedBy<T>(s: seq<T>, key: T -> (int, int)) {
    forall i, j :: 0 <= i < j < |s| ==> KeyLe(key(s[i]), key(s[j]))
  }

  predicate StrictlySortedBy<T>(s: seq<T>, key: T -> (int, int)) {
    forall i, j :: 0 <= i < j < |s| ==> KeyLt(key(s[i]), key(s[j]))
  }

  /** Inserts x in front of the first element whose key is not smaller. */
  function InsertBy<T(==)>(x: T, s: seq<T>, key: T -> (int, int)): (r: seq<T>)
    requires SortedBy(s, key)
    ensures multiset(r) == multiset(s) + multiset{x}
    ensures SortedBy(r, key)
  {
    if |s| == 0 then [x]
    else if KeyLe(key(x), key(s[0])) then
      InsertFront(x, s, key);
      [x] + s
    else
      var tail := InsertBy(x, s[1..], key);
      assert s == [s[0]] + s[1..];
      InsertAfter(x, s, tail, key);
      [s[0]] + tail
  }

  lemma InsertFront<T>(x: T, s: seq<T>, key: T -> (int, int))
    requires SortedBy(s, key) && |s| > 0 && KeyLe(key(x), key(s[0]))
    ensures SortedBy([x] + s, key)
  {
    var r := [x] + s;
    forall i, j | 0 <= i < j < |r| ensures KeyLe(key(r[i]), key(r[j])) {
      if i == 0 {
        assert r[j] == s[j - 1];
        if j > 1 { assert KeyLe(key(s[0]), key(s[j - 1])); }
      } else {
        assert r[i] == s[i - 1] && r[j] == s[j - 1];
      }
    }
  }

  lemma InsertAfter<T>(x: T, s: seq<T>, tail: seq<T>, key: T -> (int, int))
    requires SortedBy(s, key) && |s| > 0 && !KeyLe(key(x), key(s[0]))
    requires SortedBy(tail, key) && multiset(tail) == multiset(s[1..]) + multiset{x}
    ensures SortedBy([s[0]] + tail, key)
  {
    var r := [s[0]] + tail;
    forall i, j | 0 <= i < j < |r| ensures KeyLe(key(r[i]), key(r[j])) {
      if i == 0 {
        var e := tail[j - 1];
        assert r[j] == e;
        assert e in multiset(tail);
        if e != x {
          assert e in multiset(s[1..]);
          var m :| 0 <= m < |s[1..]| && s[1..][m] == e;
          assert s[m + 1] == e;
        }
      } else {
        assert r[i] == tail[i - 1] && r[j] == tail[j - 1];
      }
    }
  }

  /** `sorted(s, key=key)`: an insertion sort, stable like Python's. */
  function SortBy<T(==)>(s: seq<T>, key: T -> (int, int)): (r: seq<T>)
    ensures multiset(r) == multiset(s)
    ensures SortedBy(r, key)
  {
    if |s| == 0 then []
    else
      assert s == [s[0]] + s[1..];
      InsertBy(s[0], SortBy(s[1..], key), key)
  }

  /** Sorting a sequence that is already sorted leaves it as it is. */
  lemma {:induction false} SortBySorted<T>(s: seq<T>, key: T -> (int, int))
    requires SortedBy(s, key)
    ensures SortBy(s, key) == s
  {
    if |s| > 0 {
      var t := s[1..];
      assert SortedBy(t, key) by {
        forall i, j | 0 <= i < j < |t| ensures KeyLe(key(t[i]), key(t[j])) {
          assert t[i] == s[i + 1] && t[j] == s[j + 1];
        }
      }
      SortBySorted(t, key);
      if |t| > 0 {
        assert t[0] == s[1];
      }
      assert [s[0]] + t == s;
    }
  }

  /** A sorted sequence without two equal keys is strictly sorted. */
  lemma SortedDistinctKeysStrict<T>(s: seq<T>, key: T -> (int, int))
    requires SortedBy(s, key)
    requires forall i, j :: 0 <= i < j < |s| ==> key(s[i]) != key(s[j])
    ensures StrictlySortedBy(s, key)
  {
  }

  // ---------------------------------------------------------------------
  // Item tuples compared as Python compares tuples

  /** `a <= b` for tuples of integers. */
  predicate LexLe(a: seq<int>, b: seq<int>) {
    |a| == 0 || (|b| > 0 && (a[0] < b[0] || (a[0] == b[0] && LexLe(a[1..], b[1..]))))
  }

  lemma {:induction false} LexTotal(a: seq<int>, b: seq<int>)
    ensures LexLe(a, b) || LexLe(b, a)
  {
    if |a| > 0 && |b| > 0 && a[0] == b[0] {
      LexTotal(a[1..], b[1..]);
    }
  }

  lemma {:induction false} LexTrans(a: seq<int>, b: seq<int>, c: seq<int>)
    requires LexLe(a, b) && LexLe(b, c)
    ensures LexLe(a, c)
  {
    if |a| > 0 && a[0] == b[0] && b[0] == c[0] {
      LexTrans(a[1..], b[1..], c[1..]);
    }
  }

  predicate LexSorted(s: seq<seq<int>>) {
    forall i, j :: 0 <= i < j < |s| ==> LexLe(s[i], s[j])
  }

  function LexInsert(x: seq<int>, s: seq<seq<int>>): (r: seq<seq<int>>)
    requires LexSorted(s)
    ensures multiset(r) == multiset(s) + multiset{x}
    ensures LexSorted(r)
  {
    if |s| == 0 then [x]
    else if LexLe(x, s[0]) then
      LexInsertFront(x, s);
      [x] + s
    else
      var tail := LexInsert(x, s[1..]);
      assert s == [s[0]] + s[1..];
      LexInsertAfter(x, s, tail);
      [s[0]] + tail
  }

  lemma LexInsertFront(x: seq<int>, s: seq<seq<int>>)
    requires LexSorted(s) && |s| > 0 && LexLe(x, s[0])
    ensures LexSorted([x] + s)
  {
    var r := [x] + s;
    forall i, j | 0 <= i < j < |r| ensures LexLe(r[i], r[j]) {
      if i == 0 {
        assert r[j] == s[j - 1];
        if j > 1 { LexTrans(x, s[0], s[j - 1]); }
      } else {
        assert r[i] == s[i - 1] && r[j] == s[j - 1];
      }
    }
  }

  lemma LexInsertAfter(x: seq<int>, s: seq<seq<int>>, tail: seq<seq<int>>)
    requires LexSorted(s) && |s| > 0 && !LexLe(x, s[0])
    requires LexSorted(tail) && multiset(tail) == multiset(s[1..]) + multiset{x}
    ensures LexSorted([s[0]] + tail)
  {
    LexTotal(x, s[0]);
    var r := [s[0]] + tail;
    forall i, j | 0 <= i < j < |r| ensures LexLe(r[i], r[j]) {
      if i == 0 {
        var e := tail[j - 1];
        assert r[j] == e;
        assert e in multiset(tail);
        if e != x {
          assert e in multiset(s[1..]);
          var m :| 0 <= m < |s[1..]| && s[1..][m] == e;
          assert s[m + 1] == e;
        }
      } else {
        assert r[i] == tail[i - 1] && r[j] == tail[j - 1];
      }
    }
  }

  /** `sorted(level)` of a list of item tuples. */
  function LexSort(s: seq<seq<int>>): (r: seq<seq<int>>)
    ensures multiset(r) == multiset(s)
    ensures LexSorted(r)
  {
    if |s| == 0 then []
    else
      assert s == [s[0]] + s[1..];
      LexInsert(s[0], LexSort(s[1..]))
  }
}
