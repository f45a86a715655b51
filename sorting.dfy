/**
 * The two uses of Python's `sorted`/`list.sort` in the analytics: a stable
 * sort on a numeric key, ascending or with `reverse=True` (which Python keeps
 * stable too), and an ascending sort on a string key. Both are insertion
 * sorts; their contracts say what any correct stable sort returns.
 */
module Sorting {
  import opened Text
  import opened Seqs

  /** `a` may come before `b` in a list sorted on this key direction. */
  predicate InOrder(a: real, b: real, descending: bool) {
    if descending then a >= b else a <= b
  }

  predicate SortedBy<T>(s: seq<T>, key: T -> real, descending: bool) {
    forall i, j :: 0 <= i < j < |s| ==> InOrder(key(s[i]), key(s[j]), descending)
  }

  /** The elements of `s` whose key is `v`, in their order in `s`. */
  function WithKey<T>(s: seq<T>, key: T -> real, v: real): seq<T> {
    if s == [] then [] else (if key(s[0]) == v then [s[0]] else []) + WithKey(s[1..], key, v)
  }

  lemma {:induction false} WithKeyAppend<T>(a: seq<T>, b: seq<T>, key: T -> real, v: real)
    ensures WithKey(a + b, key, v) == WithKey(a, key, v) + WithKey(b, key, v)
  {
    if a == [] {
      assert a + b == b;
    } else {
      var head := if key(a[0]) == v then [a[0]] else [];
      assert (a + b)[0] == a[0];
      assert (a + b)[1..] == a[1..] + b;
      assert WithKey(a + b, key, v) == head + WithKey(a[1..] + b, key, v);
      WithKeyAppend(a[1..], b, key, v);
      assert WithKey(a, key, v) == head + WithKey(a[1..], key, v);
    }
  }

  /** A filter that keeps every element with key `v` does not change their order. */
  lemma {:induction false} WithKeyFilter<T(!new)>(s: seq<T>, p: T -> bool, key: T -> real, v: real)
    requires forall x :: x in s && key(x) == v ==> p(x)
    ensures WithKey(Filter(s, p), key, v) == WithKey(s, key, v)
  {
    if s != [] {
      var pre, x := s[..|s| - 1], s[|s| - 1];
      assert s == pre + [x];
      WithKeyFilter(pre, p, key, v);
      WithKeyAppend(pre, [x], key, v);
      if p(x) {
        WithKeyAppend(Filter(pre, p), [x], key, v);
      }
    }
  }

  /** Places `x` before the first element it may precede. */
  function Insert<T(==)>(x: T, s: seq<T>, key: T -> real, descending: bool): (r: seq<T>)
    ensures |r| == |s| + 1
  {
    if s == [] || InOrder(key(x), key(s[0]), descending) then [x] + s
    else [s[0]] + Insert(x, s[1..], key, descending)
  }

  /** An insertion adds `x` and keeps everything else. */
  lemma {:induction false} InsertMultiset<T>(x: T, s: seq<T>, key: T -> real, descending: bool)
    ensures multiset(Insert(x, s, key, descending)) == multiset(s) + multiset{x}
  {
    if s != [] && !InOrder(key(x), key(s[0]), descending) {
      InsertMultiset(x, s[1..], key, descending);
      assert s == [s[0]] + s[1..];
    }
  }

  /** Every element of an insertion is `x` or came from `s`. */
  lemma InsertMembers<T>(x: T, s: seq<T>, key: T -> real, descending: bool)
    ensures forall y :: y in Insert(x, s, key, descending) ==> y == x || y in s
  {
    var r := Insert(x, s, key, descending);
    InsertMultiset(x, s, key, descending);
    forall y | y in r ensures y == x || y in s {
      assert y in multiset(r);
    }
  }

  lemma PrependSorted<T>(x: T, s: seq<T>, key: T -> real, descending: bool)
    requires SortedBy(s, key, descending)
    requires forall y :: y in s ==> InOrder(key(x), key(y), descending)
    ensures SortedBy([x] + s, key, descending)
  {
    var r := [x] + s;
    forall i, j | 0 <= i < j < |r| ensures InOrder(key(r[i]), key(r[j]), descending) {
      if i == 0 {
        assert r[j] in s;
      } else {
        assert r[i] == s[i - 1] && r[j] == s[j - 1];
      }
    }
  }

  lemma {:induction false} InsertSorted<T>(x: T, s: seq<T>, key: T -> real, descending: bool)
    requires SortedBy(s, key, descending)
    ensures SortedBy(Insert(x, s, key, descending), key, descending)
  {
    if s == [] || InOrder(key(x), key(s[0]), descending) {
      forall y | y in s ensures InOrder(key(x), key(y), descending) {
        var k :| 0 <= k < |s| && s[k] == y;
        if k > 0 {
          assert InOrder(key(s[0]), key(s[k]), descending);
        }
      }
      PrependSorted(x, s, key, descending);
    } else {
      var rest := Insert(x, s[1..], key, descending);
      InsertSorted(x, s[1..], key, descending);
      InsertMembers(x, s[1..], key, descending);
      forall y | y in rest ensures InOrder(key(s[0]), key(y), descending) {
        if y != x {
          var k :| 0 <= k < |s[1..]| && s[1..][k] == y;
          assert InOrder(key(s[0]), key(s[k + 1]), descending);
        }
      }
      PrependSorted(s[0], rest, key, descending);
    }
  }

  /** A prefix of a sorted list is sorted, and in a descending list it holds the largest keys. */
  lemma SortedPrefix<T>(s: seq<T>, key: T -> real, k: nat)
    requires SortedBy(s, key, true) && k <= |s|
    ensures SortedBy(s[..k], key, true)
    ensures forall x, y :: x in s && x !in s[..k] && y in s[..k] ==> key(x) <= key(y)
  {
    var p := s[..k];
    forall i, j | 0 <= i < j < |p| ensures InOrder(key(p[i]), key(p[j]), true) {
      assert p[i] == s[i] && p[j] == s[j];
    }
    forall x, y | x in s && x !in p && y in p ensures key(x) <= key(y) {
      var a :| k <= a < |s| && s[a] == x;
      var b :| 0 <= b < |p| && p[b] == y;
      assert s[b] == y;
      assert InOrder(key(s[b]), key(s[a]), true);
    }
  }

  lemma WithKeyCons<T>(x: T, s: seq<T>, key: T -> real, v: real)
    ensures WithKey([x] + s, key, v) == (if key(x) == v then [x] else []) + WithKey(s, key, v)
  {
    assert ([x] + s)[0] == x && ([x] + s)[1..] == s;
  }

  lemma {:induction false} InsertWithKey<T>(x: T, s: seq<T>, key: T -> real, descending: bool, v: real)
    ensures WithKey(Insert(x, s, key, descending), key, v)
         == (if key(x) == v then [x] else []) + WithKey(s, key, v)
    decreases |s|, 1
  {
    if s == [] || InOrder(key(x), key(s[0]), descending) {
      WithKeyCons(x, s, key, v);
    } else {
      InsertBehindWithKey(x, s, key, descending, v);
    }
  }

  /** The case where `x` goes after the head of `s`; keys differ there, so at most one is kept. */
  lemma {:induction false} InsertBehindWithKey<T>(x: T, s: seq<T>, key: T -> real, descending: bool, v: real)
    requires s != [] && !InOrder(key(x), key(s[0]), descending)
    ensures WithKey([s[0]] + Insert(x, s[1..], key, descending), key, v)
         == (if key(x) == v then [x] else []) + WithKey(s, key, v)
    decreases |s|, 0
  {
    var rest := Insert(x, s[1..], key, descending);
    var hx := if key(x) == v then [x] else [];
    var h0 := if key(s[0]) == v then [s[0]] else [];
    var tail := WithKey(s[1..], key, v);
    WithKeyCons(s[0], rest, key, v);
    InsertWithKey(x, s[1..], key, descending, v);
    assert WithKey([s[0]] + rest, key, v) == h0 + (hx + tail);
    assert WithKey(s, key, v) == h0 + tail;
    if key(x) == v {
      assert h0 == [];
      assert h0 + (hx + tail) == hx + tail;
    } else {
      assert hx == [];
      assert h0 + (hx + tail) == h0 + tail;
    }
  }




  /**
   * Python's stable sort on `key`: the result is ordered, holds the same
   * elements, and keeps elements with equal keys in their input order.
   */
  function StableSort<T(==)>(s: seq<T>, key: T -> real, descending: bool): (r: seq<T>)
    ensures |r| == |s|
    ensures multiset(r) == multiset(s)
    ensures SortedBy(r, key, descending)
    ensures forall v :: WithKey(r, key, v) == WithKey(s, key, v)
  {
    if s == [] then []
    else
      assert s == [s[0]] + s[1..];
      var rest := StableSort(s[1..], key, descending);
      InsertMultiset(s[0], rest, key, descending);
      InsertSorted(s[0], rest, key, descending);
      assert forall v :: WithKey(Insert(s[0], rest, key, descending), key, v) == WithKey(s, key, v) by {
        forall v ensures WithKey(Insert(s[0], rest, key, descending), key, v) == WithKey(s, key, v) {
          InsertWithKey(s[0], rest, key, descending, v);
        }
      }
      Insert(s[0], rest, key, descending)
  }

  lemma {:induction false} InsertSum<T>(x: T, s: seq<T>, key: T -> real, descending: bool, f: T -> real)
    ensures SumBy(Insert(x, s, key, descending), f) == f(x) + SumBy(s, f)
  {
    if s != [] && !InOrder(key(x), key(s[0]), descending) {
      InsertSum(x, s[1..], key, descending, f);
    }
  }

  /** Sorting does not change a sum over the elements. */
  lemma {:induction false} StableSortSum<T>(s: seq<T>, key: T -> real, descending: bool, f: T -> real)
    ensures SumBy(StableSort(s, key, descending), f) == SumBy(s, f)
  {
    if s != [] {
      StableSortSum(s[1..], key, descending, f);
      InsertSum(s[0], StableSort(s[1..], key, descending), key, descending, f);
    }
  }

  /** Strictly ascending in `key` under Python's string order. */
  predicate Ascending<T>(s: seq<T>, key: T -> string) {
    forall i, j :: 0 <= i < j < |s| ==> StrLt(key(s[i]), key(s[j]))
  }

  predicate DistinctKeys<T>(s: seq<T>, key: T -> string) {
    forall i, j :: 0 <= i < j < |s| ==> key(s[i]) != key(s[j])
  }

  lemma PrependDistinct<T>(x: T, s: seq<T>, name: T -> string)
    requires DistinctKeys(s, name)
    requires forall y :: y in s ==> name(y) != name(x)
    ensures DistinctKeys([x] + s, name)
  {
    var r := [x] + s;
    forall i, j | 0 <= i < j < |r| ensures name(r[i]) != name(r[j]) {
      if i == 0 {
        assert r[j] in s;
      } else {
        assert r[i] == s[i - 1] && r[j] == s[j - 1];
      }
    }
  }

  lemma TailDistinct<T>(s: seq<T>, name: T -> string)
    requires s != [] && DistinctKeys(s, name)
    ensures DistinctKeys(s[1..], name)
  {
    forall i, j | 0 <= i < j < |s[1..]| ensures name(s[1..][i]) != name(s[1..][j]) {
      assert s[1..][i] == s[i + 1] && s[1..][j] == s[j + 1];
    }
  }

  lemma {:induction false} InsertDistinct<T>(x: T, s: seq<T>, key: T -> real, descending: bool, name: T -> string)
    requires DistinctKeys(s, name)
    requires forall y :: y in s ==> name(y) != name(x)
    ensures DistinctKeys(Insert(x, s, key, descending), name)
  {
    if s == [] || InOrder(key(x), key(s[0]), descending) {
      PrependDistinct(x, s, name);
    } else {
      var rest := Insert(x, s[1..], key, descending);
      assert s[0] in s;
      forall y | y in s[1..] ensures name(y) != name(x) {
        assert y in s;
      }
      TailDistinct(s, name);
      InsertDistinct(x, s[1..], key, descending, name);
      InsertMembers(x, s[1..], key, descending);
      forall y | y in rest ensures name(y) != name(s[0]) {
        if y != x {
          var k :| 0 <= k < |s[1..]| && s[1..][k] == y;
          assert s[k + 1] == y;
        }
      }
      PrependDistinct(s[0], rest, name);
    }
  }

  /** Sorting keeps names distinct: the dict built from sorted items has one entry per key. */
  lemma {:induction false} StableSortDistinct<T>(s: seq<T>, key: T -> real, descending: bool, name: T -> string)
    requires DistinctKeys(s, name)
    ensures DistinctKeys(StableSort(s, key, descending), name)
  {
    if s != [] {
      var rest := StableSort(s[1..], key, descending);
      TailDistinct(s, name);
      StableSortDistinct(s[1..], key, descending, name);
      forall y | y in rest ensures name(y) != name(s[0]) {
        assert y in multiset(s[1..]);
        var k :| 0 <= k < |s[1..]| && s[1..][k] == y;
        assert s[k + 1] == y;
      }
      InsertDistinct(s[0], rest, key, descending, name);
    }
  }

  function InsertByText<T(==)>(x: T, s: seq<T>, key: T -> string): (r: seq<T>)
    ensures |r| == |s| + 1
  {
    if s == [] || !StrLt(key(s[0]), key(x)) then [x] + s
    else [s[0]] + InsertByText(x, s[1..], key)
  }

  lemma {:induction false} InsertByTextMultiset<T>(x: T, s: seq<T>, key: T -> string)
    ensures multiset(InsertByText(x, s, key)) == multiset(s) + multiset{x}
  {
    if s != [] && StrLt(key(s[0]), key(x)) {
      InsertByTextMultiset(x, s[1..], key);
      assert s == [s[0]] + s[1..];
    }
  }

  lemma InsertByTextMembers<T>(x: T, s: seq<T>, key: T -> string)
    ensures forall y :: y in InsertByText(x, s, key) ==> y == x || y in s
  {
    var r := InsertByText(x, s, key);
    InsertByTextMultiset(x, s, key);
    forall y | y in r ensures y == x || y in s {
      assert y in multiset(r);
    }
  }

  lemma PrependAscending<T>(x: T, s: seq<T>, key: T -> string)
    requires Ascending(s, key)
    requires forall y :: y in s ==> StrLt(key(x), key(y))
    ensures Ascending([x] + s, key)
  {
    var r := [x] + s;
    forall i, j | 0 <= i < j < |r| ensures StrLt(key(r[i]), key(r[j])) {
      if i == 0 {
        assert r[j] in s;
      } else {
        assert r[i] == s[i - 1] && r[j] == s[j - 1];
      }
    }
  }

  lemma {:induction false} InsertByTextAscending<T>(x: T, s: seq<T>, key: T -> string)
    requires Ascending(s, key)
    requires forall y :: y in s ==> key(y) != key(x)
    ensures Ascending(InsertByText(x, s, key), key)
  {
    if s == [] {
    } else if !StrLt(key(s[0]), key(x)) {
      assert s[0] in s;
      StrLtTotal(key(x), key(s[0]));
      forall y | y in s ensures StrLt(key(x), key(y)) {
        var k :| 0 <= k < |s| && s[k] == y;
        if k > 0 {
          StrLtTransitive(key(x), key(s[0]), key(s[k]));
        }
      }
      PrependAscending(x, s, key);
    } else {
      var rest := InsertByText(x, s[1..], key);
      forall y | y in s[1..] ensures key(y) != key(x) {
        assert y in s;
      }
      forall i, j | 0 <= i < j < |s[1..]| ensures StrLt(key(s[1..][i]), key(s[1..][j])) {
        assert s[1..][i] == s[i + 1] && s[1..][j] == s[j + 1];
      }
      InsertByTextAscending(x, s[1..], key);
      InsertByTextMembers(x, s[1..], key);
      forall y | y in rest ensures StrLt(key(s[0]), key(y)) {
        if y != x {
          var k :| 0 <= k < |s[1..]| && s[1..][k] == y;
          assert s[k + 1] == y;
        }
      }
      PrependAscending(s[0], rest, key);
    }
  }

  /** `sorted` on a string key, built by insertion. */
  function SortByText<T(==)>(s: seq<T>, key: T -> string): (r: seq<T>)
    ensures |r| == |s|
  {
    if s == [] then [] else InsertByText(s[0], SortByText(s[1..], key), key)
  }

  /** Sorting keeps exactly the same elements. */
  lemma {:induction false} SortByTextMultiset<T>(s: seq<T>, key: T -> string)
    ensures multiset(SortByText(s, key)) == multiset(s)
  {
    if s != [] {
      SortByTextMultiset(s[1..], key);
      InsertByTextMultiset(s[0], SortByText(s[1..], key), key);
      assert s == [s[0]] + s[1..];
    }
  }

  /** With distinct keys, the sorted list is strictly ascending. */
  lemma {:induction false} SortByTextAscending<T>(s: seq<T>, key: T -> string)
    requires DistinctKeys(s, key)
    ensures Ascending(SortByText(s, key), key)
  {
    if s != [] {
      var rest := SortByText(s[1..], key);
      TailDistinct(s, key);
      SortByTextAscending(s[1..], key);
      SortByTextMultiset(s[1..], key);
      forall y | y in rest ensures key(y) != key(s[0]) {
        assert y in multiset(s[1..]);
        var k :| 0 <= k < |s[1..]| && s[1..][k] == y;
        assert s[k + 1] == y;
      }
      InsertByTextAscending(s[0], rest, key);
    }
  }

}
