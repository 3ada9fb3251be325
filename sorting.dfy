/**
 * `Array.prototype.sort` with a comparator that orders by one key, most first.
 * ECMA-262 requires the sort to be stable, so the model is a stable insertion sort,
 * proved to return a permutation of its input, ordered by the key, with the
 * elements of each key in their original order.
 */
module Sorting {
  import opened Seqs

  /** `later` is a strict total order: what a comparator by one key induces. */
  ghost predicate StrictTotalOrder<K(!new)>(later: (K, K) -> bool) {
    && (forall a :: !later(a, a))
    && (forall a, b, c :: later(a, b) && later(b, c) ==> later(a, c))
    && (forall a, b :: a == b || later(a, b) || later(b, a))
  }

  /** Keys never increase along `s`. */
  predicate SortedDesc<T, K>(s: seq<T>, key: T -> K, later: (K, K) -> bool) {
    forall i, j :: 0 <= i < j < |s| ==> !later(key(s[j]), key(s[i]))
  }

  /**
   * Puts `x` in front of the first element whose key is not greater than its own:
   * after every element with a greater key, before every element with the same key.
   */
  function Insert<T(!new), K>(x: T, s: seq<T>, key: T -> K, later: (K, K) -> bool): (r: seq<T>)
    ensures |r| == |s| + 1
    ensures multiset(r) == multiset(s) + multiset{x}
  {
    if s == [] then [x]
    else if later(key(s[0]), key(x)) then
      assert s == [s[0]] + s[1..];
      [s[0]] + Insert(x, s[1..], key, later)
    else [x] + s
  }

  /** `s.slice().sort((a, b) => compare(key(b), key(a)))`. */
  function SortDesc<T(!new), K>(s: seq<T>, key: T -> K, later: (K, K) -> bool): (r: seq<T>)
    ensures |r| == |s|
    ensures multiset(r) == multiset(s)
  {
    if s == [] then []
    else
      assert s == [s[0]] + s[1..];
      Insert(s[0], SortDesc(s[1..], key, later), key, later)
  }

  lemma {:induction false} InsertSorted<T(!new), K(!new)>(x: T, s: seq<T>, key: T -> K, later: (K, K) -> bool)
    requires StrictTotalOrder(later)
    requires SortedDesc(s, key, later)
    ensures SortedDesc(Insert(x, s, key, later), key, later)
  {
    if s != [] {
      var r := Insert(x, s, key, later);
      if later(key(s[0]), key(x)) {
        var u := Insert(x, s[1..], key, later);
        InsertSorted(x, s[1..], key, later);
        assert r == [s[0]] + u;
        forall j | 0 <= j < |u| ensures !later(key(u[j]), key(s[0])) {
          assert u[j] in multiset(u);
          if u[j] != x {
            assert u[j] in multiset(s[1..]);
            var k :| 0 <= k < |s[1..]| && s[1..][k] == u[j];
            assert s[k + 1] == u[j];
          }
        }
      }
    }
  }

  /** The result is ordered by the key, greatest first. */
  lemma {:induction false} SortDescSorted<T(!new), K(!new)>(s: seq<T>, key: T -> K, later: (K, K) -> bool)
    requires StrictTotalOrder(later)
    ensures SortedDesc(SortDesc(s, key, later), key, later)
  {
    if s != [] {
      SortDescSorted(s[1..], key, later);
      InsertSorted(s[0], SortDesc(s[1..], key, later), key, later);
    }
  }

  /** `x => key(x) === k`. */
  function HasKey<T, K(==)>(key: T -> K, k: K): T -> bool {
    (x: T) => key(x) == k
  }

  lemma {:induction false} InsertStable<T(!new), K(!new)>(x: T, s: seq<T>, key: T -> K, later: (K, K) -> bool, k: K)
    requires forall a :: !later(a, a)
    ensures Filter(Insert(x, s, key, later), HasKey(key, k)) == Filter([x], HasKey(key, k)) + Filter(s, HasKey(key, k))
  {
    var p := HasKey(key, k);
    if s == [] {
    } else if later(key(s[0]), key(x)) {
      var h, t := s[0], s[1..];
      var fh, fx := Filter([h], p), Filter([x], p);
      assert fh == [] || fx == [] by {
        assert !later(key(x), key(x));
      }
      calc {
        Filter(Insert(x, s, key, later), p);
      == { assert Insert(x, s, key, later) == [h] + Insert(x, t, key, later);
           FilterAppend([h], Insert(x, t, key, later), p); }
        fh + Filter(Insert(x, t, key, later), p);
      == { InsertStable(x, t, key, later, k); }
        fh + (fx + Filter(t, p));
      ==
        fx + (fh + Filter(t, p));
      == { assert s == [h] + t; FilterAppend([h], t, p); }
        fx + Filter(s, p);
      }
    } else {
      FilterAppend([x], s, p);
    }
  }

  /** The sort is stable: the elements that share a key keep their original order. */
  lemma {:induction false} SortDescStable<T(!new), K(!new)>(s: seq<T>, key: T -> K, later: (K, K) -> bool, k: K)
    requires forall a :: !later(a, a)
    ensures Filter(SortDesc(s, key, later), HasKey(key, k)) == Filter(s, HasKey(key, k))
  {
    if s != [] {
      SortDescStable(s[1..], key, later, k);
      InsertStable(s[0], SortDesc(s[1..], key, later), key, later, k);
      assert s == [s[0]] + s[1..];
      FilterAppend([s[0]], s[1..], HasKey(key, k));
    }
  }
}
