/**
 * Sequence helpers standing for Python list idioms: list comprehensions
 * with a condition, `sum` over a generator, lookup of a key among the
 * entries of an insertion-ordered dict, and de-duplication in first-seen
 * order.
 */
module Seqs {
  import opened Options

  /** `a` is `b` with some elements deleted, the rest kept in order. */
  predicate IsSubseq<T(==)>(a: seq<T>, b: seq<T>)
    decreases |b|
  {
    if b == [] then a == []
    else
      || IsSubseq(a, b[..|b| - 1])
      || (a != [] && a[|a| - 1] == b[|b| - 1] && IsSubseq(a[..|a| - 1], b[..|b| - 1]))
  }

  lemma {:induction false} IsSubseqTransitive<T>(a: seq<T>, b: seq<T>, c: seq<T>)
    requires IsSubseq(a, b) && IsSubseq(b, c)
    ensures IsSubseq(a, c)
    decreases |c|
  {
    if c != [] {
      if IsSubseq(b, c[..|c| - 1]) {
        IsSubseqTransitive(a, b, c[..|c| - 1]);
      } else if IsSubseq(a, b[..|b| - 1]) {
        IsSubseqTransitive(a, b[..|b| - 1], c[..|c| - 1]);
      } else {
        IsSubseqTransitive(a[..|a| - 1], b[..|b| - 1], c[..|c| - 1]);
      }
    }
  }

  lemma {:induction false} IsSubseqReflexive<T>(s: seq<T>)
    ensures IsSubseq(s, s)
  {
    if s != [] {
      IsSubseqReflexive(s[..|s| - 1]);
    }
  }

  /** Putting the same element in front of both keeps a subsequence, and so does putting one in front of the larger. */
  lemma {:induction false} IsSubseqCons<T>(x: T, a: seq<T>, b: seq<T>)
    requires IsSubseq(a, b)
    ensures IsSubseq(a, [x] + b)
    ensures IsSubseq([x] + a, [x] + b)
    decreases |b|
  {
    if b == [] {
      assert ([x] + b)[..0] == [];
      assert ([x] + a)[..0] == [];
    } else {
      var init := b[..|b| - 1];
      assert ([x] + b)[..|b|] == [x] + init;
      if IsSubseq(a, init) {
        IsSubseqCons(x, a, init);
      } else {
        var front := a[..|a| - 1];
        IsSubseqCons(x, front, init);
        assert ([x] + a)[..|a|] == [x] + front;
      }
    }
  }

  /** Number of elements of `s` that fail `p`. */
  function CountFailing<T>(s: seq<T>, p: T -> bool): nat {
    if s == [] then 0 else CountFailing(s[..|s| - 1], p) + (if p(s[|s| - 1]) then 0 else 1)
  }

  /** `[x for x in s if p(x)]`. */
  function Filter<T(==,!new)>(s: seq<T>, p: T -> bool): (r: seq<T>)
    ensures |r| + CountFailing(s, p) == |s|
    ensures forall x :: x in r <==> x in s && p(x)
    ensures IsSubseq(r, s)
  {
    if s == [] then []
    else
      var r := Filter(s[..|s| - 1], p);
      var x := s[|s| - 1];
      assert s == s[..|s| - 1] + [x];
      if p(x) then
        assert (r + [x])[..|r|] == r;
        r + [x]
      else r
  }

  /** Filtering a sequence with one more element in front. */
  lemma {:induction false} FilterCons<T(!new)>(x: T, s: seq<T>, p: T -> bool)
    ensures Filter([x] + s, p) == (if p(x) then [x] else []) + Filter(s, p)
    decreases |s|
  {
    if s == [] {
      assert ([x] + s)[..0] == [];
    } else {
      var init, y := s[..|s| - 1], s[|s| - 1];
      var front, last := if p(x) then [x] else [], if p(y) then [y] else [];
      calc {
        Filter([x] + s, p);
      == { assert [x] + s == ([x] + init) + [y]; FilterSnoc([x] + init, y, p); }
        Filter([x] + init, p) + last;
      == { FilterCons(x, init, p); }
        (front + Filter(init, p)) + last;
      ==
        front + (Filter(init, p) + last);
      == { assert s == init + [y]; FilterSnoc(init, y, p); }
        front + Filter(s, p);
      }
    }
  }

  /** Filtering a sequence with one more element at the end. */
  lemma FilterSnoc<T(!new)>(s: seq<T>, y: T, p: T -> bool)
    ensures Filter(s + [y], p) == Filter(s, p) + (if p(y) then [y] else [])
  {
    assert (s + [y])[..|s|] == s;
  }

  /** A filter whose condition holds everywhere keeps the whole sequence. */
  lemma {:induction false} FilterKeepsAll<T(!new)>(s: seq<T>, p: T -> bool)
    requires forall x :: x in s ==> p(x)
    ensures Filter(s, p) == s
  {
    if s != [] {
      FilterKeepsAll(s[..|s| - 1], p);
      assert s == s[..|s| - 1] + [s[|s| - 1]];
    }
  }

  /** `[y for x in s for y in [f(x)] if y is not None]`: the results of `f` that exist, in order. */
  function FilterMap<A, B>(s: seq<A>, f: A -> Option<B>): seq<B> {
    if s == [] then []
    else
      var rest := FilterMap(s[..|s| - 1], f);
      match f(s[|s| - 1])
      case Some(y) => rest + [y]
      case None => rest
  }

  lemma FilterMapSnoc<A, B>(s: seq<A>, x: A, f: A -> Option<B>)
    ensures FilterMap(s + [x], f) == FilterMap(s, f) + (if f(x).Some? then [f(x).value] else [])
  {
    assert (s + [x])[..|s|] == s;
  }

  /** Each element is mapped on its own: mapping a concatenation concatenates. */
  lemma {:induction false} FilterMapAppend<A, B>(a: seq<A>, b: seq<A>, f: A -> Option<B>)
    ensures FilterMap(a + b, f) == FilterMap(a, f) + FilterMap(b, f)
    decreases |b|
  {
    if b == [] {
      assert a + b == a;
    } else {
      var b', x := b[..|b| - 1], b[|b| - 1];
      assert a + b == (a + b') + [x];
      assert b == b' + [x];
      FilterMapAppend(a, b', f);
      FilterMapSnoc(a + b', x, f);
      FilterMapSnoc(b', x, f);
    }
  }

  lemma {:induction false} FilterMapBound<A, B>(s: seq<A>, f: A -> Option<B>)
    ensures |FilterMap(s, f)| <= |s|
  {
    if s != [] {
      FilterMapBound(s[..|s| - 1], f);
    }
  }

  /** An output comes from some input that maps to it, and every input that maps to something gives it. */
  lemma {:induction false} FilterMapMembers<A, B>(s: seq<A>, f: A -> Option<B>)
    ensures forall y :: y in FilterMap(s, f) <==> exists x :: x in s && f(x) == Some(y)
  {
    if s != [] {
      var pre := s[..|s| - 1];
      FilterMapMembers(pre, f);
      assert s == pre + [s[|s| - 1]];
    }
  }

  /** Python's `s[:n]`: a negative `n` counts from the end. */
  function SliceTo<T>(s: seq<T>, n: int): (r: seq<T>)
    ensures n >= 0 ==> |r| == if n <= |s| then n else |s|
    ensures n < 0 ==> |r| == if -n <= |s| then |s| + n else 0
    ensures r == s[..|r|]
  {
    if n >= 0 then (if n <= |s| then s[..n] else s)
    else if -n <= |s| then s[..|s| + n]
    else []
  }

  /** Python's `max(s, key=key)`: the first position holding the largest key. */
  function MaxIndex<T>(s: seq<T>, key: T -> real): (i: nat)
    requires s != []
    ensures i < |s|
    ensures forall j :: 0 <= j < |s| ==> key(s[j]) <= key(s[i])
    ensures forall j :: 0 <= j < i ==> key(s[j]) < key(s[i])
  {
    if |s| == 1 then 0
    else
      var i := MaxIndex(s[..|s| - 1], key);
      assert forall j :: 0 <= j < |s| - 1 ==> s[..|s| - 1][j] == s[j];
      if key(s[|s| - 1]) > key(s[i]) then |s| - 1 else i
  }

  /** `sum(f(x) for x in s)`. */
  function SumBy<T>(s: seq<T>, f: T -> real): real {
    if s == [] then 0.0 else f(s[0]) + SumBy(s[1..], f)
  }

  lemma {:induction false} SumByAppend<T>(a: seq<T>, b: seq<T>, f: T -> real)
    ensures SumBy(a + b, f) == SumBy(a, f) + SumBy(b, f)
  {
    if a == [] {
      assert a + b == b;
    } else {
      assert (a + b)[1..] == a[1..] + b;
      SumByAppend(a[1..], b, f);
    }
  }

  /** `part / whole * 100 if whole > 0 else 0`. */
  function Percentage(part: real, whole: real): real {
    if whole > 0.0 then part / whole * 100.0 else 0.0
  }

  lemma PercentageAdd(a: real, b: real, whole: real)
    ensures Percentage(a + b, whole) == Percentage(a, whole) + Percentage(b, whole)
  {
  }

  /** Percentages of the parts of a whole add up to the percentage of their sum. */
  lemma {:induction false} SumOfPercentages<T>(s: seq<T>, f: T -> real, g: T -> real, whole: real)
    requires forall x :: x in s ==> g(x) == Percentage(f(x), whole)
    ensures SumBy(s, g) == Percentage(SumBy(s, f), whole)
  {
    if s != [] {
      assert s[0] in s;
      assert forall x :: x in s[1..] ==> x in s;
      SumOfPercentages(s[1..], f, g, whole);
      PercentageAdd(f(s[0]), SumBy(s[1..], f), whole);
    }
  }

  lemma WholePercentage(whole: real)
    requires whole > 0.0
    ensures Percentage(whole, whole) == 100.0
  {
  }

  /** The elements of `s` without repetitions, each where it first occurs. */
  function Distinct<T(==,!new)>(s: seq<T>): (r: seq<T>)
    ensures forall x :: x in r <==> x in s
    ensures forall i, j :: 0 <= i < j < |r| ==> r[i] != r[j]
  {
    if s == [] then []
    else
      var r := Distinct(s[..|s| - 1]);
      var x := s[|s| - 1];
      assert s == s[..|s| - 1] + [x];
      if x in r then r else r + [x]
  }

  /** Some occurrence of `x` in `s` comes before every occurrence of `y`. */
  predicate FirstBefore<T(==)>(s: seq<T>, x: T, y: T) {
    exists a :: 0 <= a < |s| && s[a] == x && forall b :: 0 <= b <= a ==> s[b] != y
  }

  /** The elements of `Distinct(s)` come in the order of their first occurrences in `s`. */
  lemma {:induction false} DistinctOrder<T(!new)>(s: seq<T>)
    ensures forall i, j :: 0 <= i < j < |Distinct(s)| ==> FirstBefore(s, Distinct(s)[i], Distinct(s)[j])
  {
    if s != [] {
      var init, x := s[..|s| - 1], s[|s| - 1];
      DistinctOrder(init);
      var r := Distinct(init);
      forall i, j | 0 <= i < j < |Distinct(s)| ensures FirstBefore(s, Distinct(s)[i], Distinct(s)[j]) {
        if j < |r| {
          var a :| 0 <= a < |init| && init[a] == r[i] && forall b :: 0 <= b <= a ==> init[b] != r[j];
          assert s[a] == r[i];
          assert forall b :: 0 <= b <= a ==> s[b] == init[b];
        } else {
          assert r[i] in init;
          var a :| 0 <= a < |init| && init[a] == r[i];
          assert Distinct(s)[j] == x && x !in init;
          assert forall b :: 0 <= b <= a ==> s[b] == init[b];
          assert s[a] == r[i];
        }
      }
    }
  }

  /**
   * Position of the entry whose key is `k`, or -1: the `k in d` test and
   * the `d[k]` lookup on an insertion-ordered dict whose entries are `s`.
   */
  method Find<T>(s: seq<T>, key: T -> string, k: string) returns (j: int)
    ensures -1 <= j < |s|
    ensures j == -1 <==> forall i :: 0 <= i < |s| ==> key(s[i]) != k
    ensures j >= 0 ==> key(s[j]) == k
  {
    j := 0;
    while j < |s| && key(s[j]) != k
      invariant 0 <= j <= |s|
      invariant forall i :: 0 <= i < j ==> key(s[i]) != k
    {
      j := j + 1;
    }
    if j == |s| {
      j := -1;
    }
  }
}
