/** Generic facts about sequences used by every stage of the pipeline:
    ordering by a total preorder, sums of a real-valued measure, element-wise
    maps and duplicate-freedom, each with the permutation lemma it needs. */
module Sequences {

  /** `le` compares every pair and its comparisons chain. */
  ghost predicate TotalPreorder<T(!new)>(le: (T, T) -> bool) {
    && (forall a, b :: le(a, b) || le(b, a))
    && (forall a, b, c :: le(a, b) && le(b, c) ==> le(a, c))
  }

  predicate Sorted<T>(s: seq<T>, le: (T, T) -> bool) {
    forall i, j :: 0 <= i < j < |s| ==> le(s[i], s[j])
  }

  /** Whatever is built from the tail of a sorted sequence and an element
      ranked after its head stays ranked after that head. */
  lemma HeadBelowRest<T>(x: T, s: seq<T>, rest: seq<T>, le: (T, T) -> bool)
    requires |s| > 0 && Sorted(s, le) && le(s[0], x)
    requires multiset(rest) == multiset(s[1..]) + multiset{x}
    ensures forall y :: y in rest ==> le(s[0], y)
  {
    forall y | y in rest
      ensures le(s[0], y)
    {
      assert y in multiset(rest);
      if y != x {
        assert y in multiset(s[1..]);
        var j :| 0 <= j < |s[1..]| && s[1..][j] == y;
        assert s[j + 1] == y;
      }
    }
  }

  /** Places `x` into a sorted sequence. */
  function Insert<T(!new)>(x: T, s: seq<T>, le: (T, T) -> bool): (r: seq<T>)
    requires TotalPreorder(le)
    requires Sorted(s, le)
    ensures multiset(r) == multiset(s) + multiset{x}
    ensures Sorted(r, le)
    decreases |s|
  {
    if |s| == 0 then [x]
    else if le(x, s[0]) then
      assert s == [s[0]] + s[1..];
      [x] + s
    else
      var rest := Insert(x, s[1..], le);
      assert s == [s[0]] + s[1..];
      HeadBelowRest(x, s, rest, le);
      [s[0]] + rest
  }

  /** Orders `s` by `le`. The source's sorts are not stable, so nothing is
      promised about the relative order of elements `le` ranks equal. */
  function SortBy<T(!new)>(s: seq<T>, le: (T, T) -> bool): (r: seq<T>)
    requires TotalPreorder(le)
    ensures multiset(r) == multiset(s)
    ensures |r| == |s|
    ensures Sorted(r, le)
  {
    if |s| == 0 then []
    else
      assert s == [s[0]] + s[1..];
      Insert(s[0], SortBy(s[1..], le), le)
  }

  /** Sum of `f` over the elements of `s`, in order. */
  function SumOf<T>(s: seq<T>, f: T -> real): real {
    if |s| == 0 then 0.0 else f(s[0]) + SumOf(s[1..], f)
  }

  lemma {:induction false} SumOfAppend<T>(a: seq<T>, b: seq<T>, f: T -> real)
    ensures SumOf(a + b, f) == SumOf(a, f) + SumOf(b, f)
    decreases |a|
  {
    if |a| == 0 {
      assert a + b == b;
    } else {
      assert (a + b)[1..] == a[1..] + b;
      SumOfAppend(a[1..], b, f);
    }
  }

  /** `b` without its element at index `k`. */
  function RemoveAt<T>(b: seq<T>, k: int): (rest: seq<T>)
    requires 0 <= k < |b|
    ensures b == b[..k] + [b[k]] + b[k + 1..]
    ensures rest == b[..k] + b[k + 1..]
    ensures multiset(rest) == multiset(b) - multiset{b[k]}
  {
    assert b == b[..k] + [b[k]] + b[k + 1..];
    b[..k] + b[k + 1..]
  }

  /** The first element of `a` sits somewhere in any permutation `b` of `a`,
      and what is left of the two is again a permutation. */
  lemma PermutationPick<T>(a: seq<T>, b: seq<T>) returns (k: int)
    requires multiset(a) == multiset(b)
    requires |a| > 0
    ensures 0 <= k < |b| && b[k] == a[0]
    ensures multiset(a[1..]) == multiset(RemoveAt(b, k))
  {
    assert a == [a[0]] + a[1..];
    assert a[0] in multiset(b);
    k :| 0 <= k < |b| && b[k] == a[0];
  }

  /** Taking one term out of a sum subtracts its measure. */
  lemma SumOfRemoveAt<T>(b: seq<T>, k: int, f: T -> real)
    requires 0 <= k < |b|
    ensures SumOf(b, f) == SumOf(RemoveAt(b, k), f) + f(b[k])
  {
    var before, x, after := b[..k], b[k], b[k + 1..];
    SumOfAppend(before + [x], after, f);
    SumOfAppend(before, [x], f);
    SumOfAppend(before, after, f);
    assert SumOf([x], f) == f(x);
  }

  /** A sum does not depend on the order of its terms. */
  lemma {:induction false} SumOfPermutation<T>(a: seq<T>, b: seq<T>, f: T -> real)
    requires multiset(a) == multiset(b)
    ensures SumOf(a, f) == SumOf(b, f)
    decreases |a|
  {
    if |a| == 0 {
      assert |b| == |multiset(b)| == 0;
      assert b == a;
    } else {
      var k := PermutationPick(a, b);
      SumOfPermutation(a[1..], RemoveAt(b, k), f);
      SumOfRemoveAt(b, k, f);
    }
  }

  function Map<T, U>(f: T -> U, s: seq<T>): (r: seq<U>)
    ensures |r| == |s|
    ensures forall i :: 0 <= i < |s| ==> r[i] == f(s[i])
  {
    seq(|s|, i requires 0 <= i < |s| => f(s[i]))
  }

  lemma MapAppend<T, U>(f: T -> U, a: seq<T>, b: seq<T>)
    ensures Map(f, a + b) == Map(f, a) + Map(f, b)
  {
  }

  /** Taking one element out of a sequence takes its image out of the mapped sequence. */
  lemma MapRemoveAt<T, U>(f: T -> U, b: seq<T>, k: int)
    requires 0 <= k < |b|
    ensures multiset(Map(f, b)) == multiset(Map(f, RemoveAt(b, k))) + multiset{f(b[k])}
  {
    var before, after := b[..k], b[k + 1..];
    assert b == before + [b[k]] + after;
    assert Map(f, [b[k]]) == [f(b[k])];
    MapAppend(f, before, [b[k]]);
    MapAppend(f, before + [b[k]], after);
    MapAppend(f, before, after);
  }

  /** Mapping two permutations of each other gives permutations of each other. */
  lemma {:induction false} MapPermutation<T, U>(f: T -> U, a: seq<T>, b: seq<T>)
    requires multiset(a) == multiset(b)
    ensures multiset(Map(f, a)) == multiset(Map(f, b))
    decreases |a|
  {
    if |a| == 0 {
      assert |b| == |multiset(b)| == 0;
      assert Map(f, a) == Map(f, b) == [];
    } else {
      var x := a[0];
      assert a == [x] + a[1..];
      MapAppend(f, [x], a[1..]);
      assert Map(f, [x]) == [f(x)];
      var k := PermutationPick(a, b);
      MapPermutation(f, a[1..], RemoveAt(b, k));
      MapRemoveAt(f, b, k);
    }
  }

  predicate NoDuplicates<T(==)>(s: seq<T>) {
    forall i, j :: 0 <= i < j < |s| ==> s[i] != s[j]
  }

  lemma {:induction false} NoDuplicatesCountsOnce<T>(s: seq<T>, x: T)
    requires NoDuplicates(s)
    ensures multiset(s)[x] <= 1
    decreases |s|
  {
    if |s| > 0 {
      assert s == [s[0]] + s[1..];
      NoDuplicatesCountsOnce(s[1..], x);
      if s[0] == x {
        assert x !in s[1..];
        assert multiset(s[1..])[x] == 0;
      }
    }
  }

  lemma RepeatCountsTwice<T>(s: seq<T>, i: int, j: int)
    requires 0 <= i < j < |s| && s[i] == s[j]
    ensures multiset(s)[s[i]] >= 2
  {
    assert s == s[..j] + [s[j]] + s[j + 1..];
    assert s[i] in s[..j];
    assert multiset(s[..j])[s[i]] >= 1;
  }

  lemma NoDuplicatesCons<T>(x: T, s: seq<T>)
    requires NoDuplicates(s)
    requires forall i :: 0 <= i < |s| ==> s[i] != x
    ensures NoDuplicates([x] + s)
  {
    var r := [x] + s;
    forall i, j | 0 <= i < j < |r|
      ensures r[i] != r[j]
    {
      if i > 0 {
        assert r[i] == s[i - 1];
      }
      assert r[j] == s[j - 1];
    }
  }

  /** Duplicate-freedom survives any reordering. */
  lemma PermutationNoDuplicates<T>(a: seq<T>, b: seq<T>)
    requires multiset(a) == multiset(b)
    requires NoDuplicates(a)
    ensures NoDuplicates(b)
  {
    forall i, j | 0 <= i < j < |b|
      ensures b[i] != b[j]
    {
      if b[i] == b[j] {
        RepeatCountsTwice(b, i, j);
        NoDuplicatesCountsOnce(a, b[i]);
        assert false;
      }
    }
  }

  /** Two sequences whose elements measure the same, position by position,
      have the same sum. */
  lemma {:induction false} SumOfSameMeasure<T>(a: seq<T>, b: seq<T>, f: T -> real)
    requires |a| == |b|
    requires forall i :: 0 <= i < |a| ==> f(a[i]) == f(b[i])
    ensures SumOf(a, f) == SumOf(b, f)
    decreases |a|
  {
    if |a| > 0 {
      SumOfSameMeasure(a[1..], b[1..], f);
    }
  }

  /** Extending a prefix by one element adds that element's measure. */
  lemma SumOfPrefix<T>(s: seq<T>, i: int, f: T -> real)
    requires 0 <= i < |s|
    ensures SumOf(s[..i + 1], f) == SumOf(s[..i], f) + f(s[i])
  {
    assert s[..i + 1] == s[..i] + [s[i]];
    SumOfAppend(s[..i], [s[i]], f);
  }

  /** The elements of `s` that satisfy `p`, in their original order. */
  function Filter<T(!new)>(p: T -> bool, s: seq<T>): (r: seq<T>)
    ensures |r| <= |s|
    ensures forall x :: multiset(r)[x] == if p(x) then multiset(s)[x] else 0
  {
    if |s| == 0 then []
    else
      assert s == [s[0]] + s[1..];
      (if p(s[0]) then [s[0]] else []) + Filter(p, s[1..])
  }

  /** Filtering a non-empty sequence decides on its first element, then
      filters the rest. */
  lemma FilterCons<T(!new)>(p: T -> bool, s: seq<T>)
    requires |s| > 0
    ensures Filter(p, s) == if p(s[0]) then [s[0]] + Filter(p, s[1..]) else Filter(p, s[1..])
  {
  }

  /** Filtering is taken piecewise, so the kept elements keep their order. */
  lemma {:induction false} FilterAppend<T(!new)>(p: T -> bool, a: seq<T>, b: seq<T>)
    ensures Filter(p, a + b) == Filter(p, a) + Filter(p, b)
    decreases |a|
  {
    if |a| == 0 {
      assert a + b == b;
    } else {
      assert (a + b)[0] == a[0];
      assert (a + b)[1..] == a[1..] + b;
      FilterAppend(p, a[1..], b);
      FilterCons(p, a + b);
      FilterCons(p, a);
    }
  }

  /** A filter that every element passes keeps the sequence whole. */
  lemma {:induction false} FilterKeepsPassing<T(!new)>(p: T -> bool, s: seq<T>)
    requires forall i :: 0 <= i < |s| ==> p(s[i])
    ensures Filter(p, s) == s
    decreases |s|
  {
    if |s| > 0 {
      var tail := s[1..];
      assert forall i :: 0 <= i < |tail| ==> p(tail[i]) by {
        assert forall i :: 0 <= i < |tail| ==> tail[i] == s[i + 1];
      }
      FilterKeepsPassing(p, tail);
      FilterCons(p, s);
      assert s == [s[0]] + tail;
    }
  }

  /** Every element of `s` satisfies `p` exactly when filtering keeps it whole. */
  lemma FilterKeepsAll<T(!new)>(p: T -> bool, s: seq<T>)
    ensures Filter(p, s) == s <==> forall i :: 0 <= i < |s| ==> p(s[i])
  {
    if forall i :: 0 <= i < |s| ==> p(s[i]) {
      FilterKeepsPassing(p, s);
    }
    if Filter(p, s) == s {
      forall i | 0 <= i < |s|
        ensures p(s[i])
      {
        assert multiset(Filter(p, s))[s[i]] > 0;
      }
    }
  }

  /** Filtering twice with the same test is filtering once. */
  lemma FilterIdempotent<T(!new)>(p: T -> bool, s: seq<T>)
    ensures Filter(p, Filter(p, s)) == Filter(p, s)
  {
    var r := Filter(p, s);
    forall i | 0 <= i < |r|
      ensures p(r[i])
    {
      assert multiset(r)[r[i]] > 0;
    }
    FilterKeepsAll(p, r);
  }

  /** What a filter keeps and what it drops add up to the whole sequence. */
  lemma {:induction false} FilterSplitsCount<T(!new)>(p: T -> bool, q: T -> bool, s: seq<T>)
    requires forall x :: q(x) == !p(x)
    ensures |Filter(p, s)| + |Filter(q, s)| == |s|
    decreases |s|
  {
    if |s| > 0 {
      FilterSplitsCount(p, q, s[1..]);
    }
  }

  /** ... and so do their sums. */
  lemma {:induction false} FilterSplitsSum<T(!new)>(p: T -> bool, q: T -> bool, s: seq<T>, f: T -> real)
    requires forall x :: q(x) == !p(x)
    ensures SumOf(Filter(p, s), f) + SumOf(Filter(q, s), f) == SumOf(s, f)
    decreases |s|
  {
    if |s| > 0 {
      FilterSplitsSum(p, q, s[1..], f);
      var x := s[0];
      var rest := Filter(p, s[1..]);
      var drop := Filter(q, s[1..]);
      if p(x) {
        SumOfAppend([x], rest, f);
        assert Filter(q, s) == drop;
      } else {
        SumOfAppend([x], drop, f);
        assert Filter(p, s) == rest;
      }
    }
  }

  /** Filtering by one test and then another is filtering once by both. */
  lemma {:induction false} FilterFilter<T(!new)>(p: T -> bool, q: T -> bool, both: T -> bool, s: seq<T>)
    requires forall x :: both(x) == (p(x) && q(x))
    ensures Filter(p, Filter(q, s)) == Filter(both, s)
    decreases |s|
  {
    if |s| > 0 {
      var x, tail := s[0], s[1..];
      FilterFilter(p, q, both, tail);
      var kept := Filter(q, tail);
      if q(x) {
        assert Filter(q, s) == [x] + kept;
        assert ([x] + kept)[1..] == kept;
        assert Filter(p, [x] + kept) == (if p(x) then [x] else []) + Filter(p, kept);
      } else {
        assert Filter(q, s) == kept;
      }
    }
  }

  /** What a filter keeps of a sorted sequence is still sorted. */
  lemma {:induction false} FilterKeepsSorted<T(!new)>(p: T -> bool, s: seq<T>, le: (T, T) -> bool)
    requires Sorted(s, le)
    ensures Sorted(Filter(p, s), le)
    decreases |s|
  {
    if |s| > 0 {
      var x, tail := s[0], s[1..];
      var rest := Filter(p, tail);
      assert Sorted(tail, le) by {
        assert forall i :: 0 <= i < |tail| ==> tail[i] == s[i + 1];
      }
      FilterKeepsSorted(p, tail, le);
      FilterCons(p, s);
      if p(x) {
        forall y | y in rest
          ensures le(x, y)
        {
          FilterMember(p, tail, y);
          var j :| 0 <= j < |tail| && tail[j] == y;
          assert s[j + 1] == y;
        }
        SortedCons(x, rest, le);
      }
    }
  }

  /** An element ranked before everything in a sorted sequence can be put in
      front of it. */
  lemma SortedCons<T>(x: T, rest: seq<T>, le: (T, T) -> bool)
    requires Sorted(rest, le)
    requires forall y :: y in rest ==> le(x, y)
    ensures Sorted([x] + rest, le)
  {
    var r := [x] + rest;
    forall i, j | 0 <= i < j < |r|
      ensures le(r[i], r[j])
    {
      if i > 0 {
        assert r[i] == rest[i - 1] && r[j] == rest[j - 1];
      } else {
        assert r[j] in rest;
      }
    }
  }

  /** An element is kept by a filter exactly when it is in the sequence and
      passes the test. */
  lemma FilterMember<T(!new)>(p: T -> bool, s: seq<T>, x: T)
    ensures x in Filter(p, s) <==> x in s && p(x)
  {
    assert x in Filter(p, s) <==> x in multiset(Filter(p, s));
    assert x in s <==> x in multiset(s);
  }

  /** A nonempty sum of positive terms is positive. */
  lemma {:induction false} SumOfPositive<T>(s: seq<T>, f: T -> real)
    requires |s| > 0
    requires forall i :: 0 <= i < |s| ==> f(s[i]) > 0.0
    ensures SumOf(s, f) > 0.0
    decreases |s|
  {
    if |s| > 1 {
      SumOfPositive(s[1..], f);
    }
  }

  /** A sum of positive terms is at least each of its terms. */
  lemma {:induction false} SumOfAtLeastTerm<T>(s: seq<T>, f: T -> real, i: int)
    requires 0 <= i < |s|
    requires forall k :: 0 <= k < |s| ==> f(s[k]) > 0.0
    ensures SumOf(s, f) >= f(s[i])
    decreases |s|
  {
    if i > 0 {
      SumOfAtLeastTerm(s[1..], f, i - 1);
    } else if |s| > 1 {
      SumOfPositive(s[1..], f);
    }
  }

  /** A sum of terms none of which is negative is not negative. */
  lemma {:induction false} SumOfNonnegative<T>(s: seq<T>, f: T -> real)
    requires forall i :: 0 <= i < |s| ==> f(s[i]) >= 0.0
    ensures SumOf(s, f) >= 0.0
    decreases |s|
  {
    if |s| > 0 {
      SumOfNonnegative(s[1..], f);
    }
  }

  /** A sum of terms each above `bound` is at least `bound` per term. */
  lemma {:induction false} SumAboveBound<T>(s: seq<T>, f: T -> real, bound: real)
    requires forall i :: 0 <= i < |s| ==> f(s[i]) > bound
    ensures SumOf(s, f) >= bound * (|s| as real)
    decreases |s|
  {
    if |s| > 0 {
      SumAboveBound(s[1..], f, bound);
      assert bound * (|s| as real) == bound * ((|s| - 1) as real) + bound;
    }
  }
}
