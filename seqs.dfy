/**
 * Generic list operations behind the engine's `filter`, `reduce` and `findIndex`
 * calls, with the facts about them that the rest of the model relies on.
 */
module Seqs {

  /** `s.filter(p)`: the elements of `s` that satisfy `p`, in their original order. */
  function Filter<T(!new)>(s: seq<T>, p: T -> bool): (r: seq<T>)
    ensures |r| <= |s|
    ensures forall i :: 0 <= i < |r| ==> p(r[i])
  {
    if s == [] then []
    else (if p(s[0]) then [s[0]] else []) + Filter(s[1..], p)
  }

  /** A filter keeps every element that satisfies `p`, as often as it occurs, and no other. */
  lemma {:induction false} FilterMultiset<T(!new)>(s: seq<T>, p: T -> bool)
    ensures forall x :: multiset(Filter(s, p))[x] == if p(x) then multiset(s)[x] else 0
  {
    if s != [] {
      FilterMultiset(s[1..], p);
      assert s == [s[0]] + s[1..];
    }
  }

  /** `s.reduce((acc, x) => acc + f(x), 0)`. */
  function SumOf<T>(s: seq<T>, f: T -> int): int
  {
    if s == [] then 0 else f(s[0]) + SumOf(s[1..], f)
  }

  /** `a` is an order-preserving subsequence of `b`. */
  predicate IsSubseq<T(==)>(a: seq<T>, b: seq<T>)
    decreases |b|
  {
    if a == [] then true
    else if b == [] then false
    else if a[0] == b[0] then IsSubseq(a[1..], b[1..])
    else IsSubseq(a, b[1..])
  }

  /** `s.findIndex(p)`: the first index whose element satisfies `p`, or -1. */
  function IndexWhere<T>(s: seq<T>, p: T -> bool): (r: int)
    ensures -1 <= r < |s|
    ensures r == -1 <==> forall i :: 0 <= i < |s| ==> !p(s[i])
    ensures r >= 0 ==> p(s[r]) && forall i :: 0 <= i < r ==> !p(s[i])
  {
    if s == [] then -1
    else if p(s[0]) then 0
    else
      var k := IndexWhere(s[1..], p);
      if k == -1 then -1 else k + 1
  }

  /** `s` with the element at index `i` taken out: `s.splice(i, 1)`. */
  function RemoveAt<T>(s: seq<T>, i: nat): (r: seq<T>)
    requires i < |s|
    ensures |r| == |s| - 1
    ensures multiset(r) == multiset(s) - multiset{s[i]}
  {
    assert s == s[..i] + [s[i]] + s[i+1..];
    s[..i] + s[i+1..]
  }

  /** Every element of `s` satisfies `p`. */
  predicate All<T>(s: seq<T>, p: T -> bool) {
    forall i :: 0 <= i < |s| ==> p(s[i])
  }

  /** Taking an element out keeps a property every element has. */
  lemma RemoveAtKeeps<T>(s: seq<T>, i: nat, p: T -> bool)
    requires i < |s| && All(s, p)
    ensures All(RemoveAt(s, i), p)
  {
    RemoveAtOrder(s, i);
  }

  /** The elements before `i` stay in place, those after it move down by one. */
  lemma RemoveAtOrder<T>(s: seq<T>, i: nat)
    requires i < |s|
    ensures forall k :: 0 <= k < |RemoveAt(s, i)| ==> RemoveAt(s, i)[k] == if k < i then s[k] else s[k + 1]
  {
    var r := RemoveAt(s, i);
    assert r == s[..i] + s[i+1..];
    forall k | 0 <= k < |r|
      ensures r[k] == if k < i then s[k] else s[k + 1]
    {
      if k < i {
        assert r[k] == s[..i][k];
      } else {
        assert r[k] == s[i+1..][k - i];
      }
    }
  }

  /** Appending an element that has a property every element has keeps it. */
  lemma AppendKeeps<T>(s: seq<T>, x: T, p: T -> bool)
    requires All(s, p) && p(x)
    ensures All(s + [x], p)
  {
  }

  lemma {:induction false} FilterAppend<T(!new)>(a: seq<T>, b: seq<T>, p: T -> bool)
    ensures Filter(a + b, p) == Filter(a, p) + Filter(b, p)
  {
    if a == [] {
      assert a + b == b;
    } else {
      assert (a + b)[1..] == a[1..] + b;
      FilterAppend(a[1..], b, p);
    }
  }

  /** Filtering is idempotent. */
  lemma {:induction false} FilterIdempotent<T(!new)>(s: seq<T>, p: T -> bool)
    ensures Filter(Filter(s, p), p) == Filter(s, p)
  {
    if s != [] {
      FilterIdempotent(s[1..], p);
      FilterAppend(if p(s[0]) then [s[0]] else [], Filter(s[1..], p), p);
    }
  }

  /** A filter keeps its input's order: the result is a subsequence of the input. */
  lemma {:induction false} FilterIsSubseq<T(!new)>(s: seq<T>, p: T -> bool)
    ensures IsSubseq(Filter(s, p), s)
  {
    if s != [] {
      FilterIsSubseq(s[1..], p);
      var r := Filter(s, p);
      if p(s[0]) {
        assert r[0] == s[0] && r[1..] == Filter(s[1..], p);
      } else {
        assert r == Filter(s[1..], p);
        assert r != [] ==> p(r[0]) && r[0] != s[0];
      }
    }
  }

  /** Two filters whose predicates agree on every element agree. */
  lemma {:induction false} FilterExt<T(!new)>(s: seq<T>, p: T -> bool, q: T -> bool)
    requires forall i :: 0 <= i < |s| ==> p(s[i]) == q(s[i])
    ensures Filter(s, p) == Filter(s, q)
  {
    if s != [] {
      FilterExt(s[1..], p, q);
    }
  }

  /** Filtering with `p` then `q` is filtering with both. */
  lemma {:induction false} FilterFilter<T(!new)>(s: seq<T>, p: T -> bool, q: T -> bool, pq: T -> bool)
    requires forall x :: pq(x) == (p(x) && q(x))
    ensures Filter(Filter(s, p), q) == Filter(s, pq)
  {
    if s != [] {
      FilterFilter(s[1..], p, q, pq);
      FilterAppend(if p(s[0]) then [s[0]] else [], Filter(s[1..], p), q);
    }
  }

  lemma {:induction false} SumOfAppend<T>(a: seq<T>, b: seq<T>, f: T -> int)
    ensures SumOf(a + b, f) == SumOf(a, f) + SumOf(b, f)
  {
    if a == [] {
      assert a + b == b;
    } else {
      assert (a + b)[1..] == a[1..] + b;
      SumOfAppend(a[1..], b, f);
    }
  }

  /** Filtering and summing `[x] + s`: `x` adds one term when it satisfies `p`. */
  lemma FilterSumCons<T(!new)>(x: T, s: seq<T>, p: T -> bool, f: T -> int)
    ensures |Filter([x] + s, p)| == (if p(x) then 1 else 0) + |Filter(s, p)|
    ensures SumOf(Filter([x] + s, p), f) == (if p(x) then f(x) else 0) + SumOf(Filter(s, p), f)
  {
    assert ([x] + s)[1..] == s;
    var h: seq<T> := if p(x) then [x] else [];
    assert SumOf(h, f) == if p(x) then f(x) else 0 by {
      if p(x) {
        assert h[1..] == [];
      }
    }
    SumOfAppend(h, Filter(s, p), f);
  }

  /** Filtering and summing `s + [x]`: `x` adds one term when it satisfies `p`. */
  lemma FilterSumSnoc<T(!new)>(s: seq<T>, x: T, p: T -> bool, f: T -> int)
    ensures |Filter(s + [x], p)| == |Filter(s, p)| + (if p(x) then 1 else 0)
    ensures SumOf(Filter(s + [x], p), f) == SumOf(Filter(s, p), f) + (if p(x) then f(x) else 0)
  {
    FilterAppend(s, [x], p);
    FilterSumCons(x, [], p, f);
    assert [x] + [] == [x];
    SumOfAppend(Filter(s, p), Filter([x], p), f);
  }

  /** A sum does not depend on the order of its terms. */
  lemma {:induction false} SumOfPermutation<T>(a: seq<T>, b: seq<T>, f: T -> int)
    requires multiset(a) == multiset(b)
    ensures SumOf(a, f) == SumOf(b, f)
    decreases |a|
  {
    if a == [] {
      assert |b| == |multiset(b)| == 0;
    } else {
      var x := a[0];
      assert x in multiset(b);
      var i :| 0 <= i < |b| && b[i] == x;
      assert b == b[..i] + [x] + b[i+1..];
      var rest := b[..i] + b[i+1..];
      assert a == [x] + a[1..];
      assert multiset(a[1..]) == multiset(a) - multiset{x};
      assert multiset(b) == multiset(b[..i]) + multiset{x} + multiset(b[i+1..]);
      assert multiset(rest) == multiset(b[..i]) + multiset(b[i+1..]);
      assert multiset(a[1..]) == multiset(rest);
      SumOfPermutation(a[1..], rest, f);
      SumOfAppend(b[..i] + [x], b[i+1..], f);
      SumOfAppend(b[..i], [x], f);
      SumOfAppend(b[..i], b[i+1..], f);
    }
  }

  /** Summing `f(x) + g(x)` is summing `f` and summing `g`. */
  lemma {:induction false} SumOfAdd<T>(s: seq<T>, f: T -> int, g: T -> int, h: T -> int)
    requires forall i :: 0 <= i < |s| ==> h(s[i]) == f(s[i]) + g(s[i])
    ensures SumOf(s, h) == SumOf(s, f) + SumOf(s, g)
  {
    if s != [] {
      SumOfAdd(s[1..], f, g, h);
    }
  }

  /** A sum of non-negative terms is non-negative. */
  lemma {:induction false} SumOfNonNegative<T>(s: seq<T>, f: T -> int)
    requires forall i :: 0 <= i < |s| ==> f(s[i]) >= 0
    ensures SumOf(s, f) >= 0
  {
    if s != [] {
      SumOfNonNegative(s[1..], f);
    }
  }

  /** A sum of non-positive terms is non-positive. */
  lemma {:induction false} SumOfNonPositive<T>(s: seq<T>, f: T -> int)
    requires forall i :: 0 <= i < |s| ==> f(s[i]) <= 0
    ensures SumOf(s, f) <= 0
  {
    if s != [] {
      SumOfNonPositive(s[1..], f);
    }
  }

  /**
   * When `p` holds exactly where `q` or `r` holds, and never both, the elements kept by
   * `p` are those kept by `q` plus those kept by `r`, in count and in sum.
   */
  lemma {:induction false} FilterSplit<T(!new)>(s: seq<T>, p: T -> bool, q: T -> bool, r: T -> bool, f: T -> int)
    requires forall x :: p(x) == (q(x) || r(x))
    requires forall x :: !(q(x) && r(x))
    ensures |Filter(s, p)| == |Filter(s, q)| + |Filter(s, r)|
    ensures SumOf(Filter(s, p), f) == SumOf(Filter(s, q), f) + SumOf(Filter(s, r), f)
  {
    if s != [] {
      FilterSplit(s[1..], p, q, r, f);
      var h := [s[0]];
      SumOfAppend(if p(s[0]) then h else [], Filter(s[1..], p), f);
      SumOfAppend(if q(s[0]) then h else [], Filter(s[1..], q), f);
      SumOfAppend(if r(s[0]) then h else [], Filter(s[1..], r), f);
    }
  }

  /** Terms outside the filter that contribute zero do not change the sum. */
  lemma {:induction false} SumOfFilterZeros<T(!new)>(s: seq<T>, p: T -> bool, f: T -> int)
    requires forall x :: !p(x) ==> f(x) == 0
    ensures SumOf(Filter(s, p), f) == SumOf(s, f)
  {
    if s != [] {
      SumOfFilterZeros(s[1..], p, f);
      SumOfAppend(if p(s[0]) then [s[0]] else [], Filter(s[1..], p), f);
    }
  }

  /** Removing one element with no other equal to it is filtering it out by that property. */
  lemma RemoveAtIsFilter<T(!new)>(s: seq<T>, i: nat, p: T -> bool)
    requires i < |s| && !p(s[i])
    requires forall j :: 0 <= j < |s| && j != i ==> p(s[j])
    ensures RemoveAt(s, i) == Filter(s, p)
  {
    var pre, post := s[..i], s[i+1..];
    assert s == pre + [s[i]] + post;
    assert Filter(pre, p) == pre by { AllKept(pre, p); }
    assert Filter(post, p) == post by { AllKept(post, p); }
    assert Filter(pre + [s[i]], p) == pre by {
      FilterAppend(pre, [s[i]], p);
      assert Filter([s[i]], p) == [];
    }
    FilterAppend(pre + [s[i]], post, p);
  }

  lemma {:induction false} AllKept<T(!new)>(s: seq<T>, p: T -> bool)
    requires forall j :: 0 <= j < |s| ==> p(s[j])
    ensures Filter(s, p) == s
  {
    if s != [] {
      AllKept(s[1..], p);
    }
  }
}
