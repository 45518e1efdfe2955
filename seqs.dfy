/**
 * The array operations the views are built from: `filter`, `sort` with a
 * numeric comparator (`(a, b) => key(a) - key(b)`) and `slice(0, n)`.
 * `Array.prototype.sort` is stable, so `SortBy` is a stable insertion sort.
 */
module Seqs {

  /** `s.filter(p)`. */
  function Filter<T>(s: seq<T>, p: T -> bool): (r: seq<T>)
    ensures |r| <= |s|
    ensures forall i :: 0 <= i < |r| ==> r[i] in s && p(r[i])
    ensures forall i :: 0 <= i < |s| && p(s[i]) ==> s[i] in r
    ensures multiset(r) <= multiset(s)
  {
    if s == [] then [] else
      var rest := Filter(s[1..], p);
      FilterStep(s, p, rest);
      if p(s[0]) then [s[0]] + rest else rest
  }

  /** One step of `Filter`: what holds of the filtered tail holds after the head is considered. */
  lemma FilterStep<T>(s: seq<T>, p: T -> bool, rest: seq<T>)
    requires s != []
    requires |rest| <= |s[1..]|
    requires forall i :: 0 <= i < |rest| ==> rest[i] in s[1..] && p(rest[i])
    requires forall i :: 0 <= i < |s[1..]| && p(s[1..][i]) ==> s[1..][i] in rest
    requires multiset(rest) <= multiset(s[1..])
    ensures var r := if p(s[0]) then [s[0]] + rest else rest;
      && |r| <= |s|
      && (forall i :: 0 <= i < |r| ==> r[i] in s && p(r[i]))
      && (forall i :: 0 <= i < |s| && p(s[i]) ==> s[i] in r)
      && multiset(r) <= multiset(s)
  {
    var r := if p(s[0]) then [s[0]] + rest else rest;
    forall i | 0 <= i < |s| && p(s[i]) ensures s[i] in r {
      if i > 0 { assert s[i] == s[1..][i - 1]; }
    }
    assert s == [s[0]] + s[1..];
  }

  /** Filtering keeps the order: it distributes over concatenation. */
  lemma {:induction false} FilterConcat<T>(a: seq<T>, b: seq<T>, p: T -> bool)
    ensures Filter(a + b, p) == Filter(a, p) + Filter(b, p)
  {
    if a == [] {
      assert a + b == b;
    } else {
      assert (a + b)[1..] == a[1..] + b;
      FilterConcat(a[1..], b, p);
    }
  }

  /** An element of `s` survives the filter exactly when it satisfies `p`. */
  lemma FilterMember<T>(s: seq<T>, p: T -> bool, k: nat)
    requires k < |s|
    ensures s[k] in Filter(s, p) <==> p(s[k])
  {
    if s[k] in Filter(s, p) {
      var i :| 0 <= i < |Filter(s, p)| && Filter(s, p)[i] == s[k];
    }
  }

  /** Sorting neither adds nor drops an element. */
  lemma SortByMember<T>(s: seq<T>, key: T -> int, x: T)
    ensures x in SortBy(s, key) <==> x in s
  {
    assert x in SortBy(s, key) <==> x in multiset(SortBy(s, key));
  }

  /** A filter that every element passes keeps the whole sequence. */
  lemma {:induction false} FilterAll<T>(s: seq<T>, p: T -> bool)
    requires forall i :: 0 <= i < |s| ==> p(s[i])
    ensures Filter(s, p) == s
  {
    if s != [] {
      forall i | 0 <= i < |s[1..]| ensures p(s[1..][i]) {
        assert s[1..][i] == s[i + 1];
      }
      FilterAll(s[1..], p);
      assert p(s[0]);
      assert [s[0]] + s[1..] == s;
    }
  }

  /** Filtering twice with the same predicate is filtering once. */
  lemma FilterIdempotent<T>(s: seq<T>, p: T -> bool)
    ensures Filter(Filter(s, p), p) == Filter(s, p)
  {
    FilterAll(Filter(s, p), p);
  }

  /** Two predicates that agree everywhere filter alike. */
  lemma {:induction false} FilterSame<T>(s: seq<T>, p: T -> bool, q: T -> bool)
    requires forall x :: p(x) == q(x)
    ensures Filter(s, p) == Filter(s, q)
  {
    if s != [] {
      FilterSame(s[1..], p, q);
    }
  }

  /** The number of elements of `s` that satisfy `p`. */
  function CountIf<T>(s: seq<T>, p: T -> bool): (n: nat)
    ensures n <= |s|
  {
    if s == [] then 0 else (if p(s[0]) then 1 else 0) + CountIf(s[1..], p)
  }

  lemma {:induction false} FilterCount<T>(s: seq<T>, p: T -> bool)
    ensures |Filter(s, p)| == CountIf(s, p)
  {
    if s != [] {
      FilterCount(s[1..], p);
    }
  }

  /** Non-decreasing by `key`. */
  predicate Sorted<T>(s: seq<T>, key: T -> int)
  {
    forall i, j :: 0 <= i < j < |s| ==> key(s[i]) <= key(s[j])
  }

  /** Puts `x` in front of the first element whose key is not smaller. */
  function Insert<T>(x: T, s: seq<T>, key: T -> int): (r: seq<T>)
    ensures multiset(r) == multiset(s) + multiset{x}
    ensures |r| == |s| + 1
  {
    if s == [] || key(x) <= key(s[0]) then
      [x] + s
    else
      assert s == [s[0]] + s[1..];
      [s[0]] + Insert(x, s[1..], key)
  }

  /** Every element of `Insert(x, s, key)` is `x` or an element of `s`. */
  lemma InsertElement<T>(x: T, s: seq<T>, key: T -> int, j: nat)
    requires j < |Insert(x, s, key)|
    ensures Insert(x, s, key)[j] == x || Insert(x, s, key)[j] in s
  {
    var t := Insert(x, s, key);
    assert t[j] in multiset(t);
  }

  /** Inserting into a sorted sequence keeps it sorted. */
  lemma {:induction false} InsertSorted<T>(x: T, s: seq<T>, key: T -> int)
    requires Sorted(s, key)
    ensures Sorted(Insert(x, s, key), key)
  {
    if s != [] && key(x) > key(s[0]) {
      var t := Insert(x, s[1..], key);
      assert Sorted(s[1..], key);
      InsertSorted(x, s[1..], key);
      forall j | 0 <= j < |t|
        ensures key(s[0]) <= key(t[j])
      {
        InsertElement(x, s[1..], key, j);
      }
      assert Insert(x, s, key) == [s[0]] + t;
    }
  }

  /** The stable sort `s.sort((a, b) => key(a) - key(b))`. */
  function SortBy<T>(s: seq<T>, key: T -> int): (r: seq<T>)
    ensures multiset(r) == multiset(s)
    ensures |r| == |s|
    ensures Sorted(r, key)
  {
    if s == [] then [] else
      assert s == [s[0]] + s[1..];
      var t := SortBy(s[1..], key);
      InsertSorted(s[0], t, key);
      Insert(s[0], t, key)
  }

  /** A property every element has survives sorting. */
  lemma SortByAll<T>(s: seq<T>, key: T -> int, p: T -> bool)
    requires forall i :: 0 <= i < |s| ==> p(s[i])
    ensures forall i :: 0 <= i < |SortBy(s, key)| ==> p(SortBy(s, key)[i])
  {
    var r := SortBy(s, key);
    forall i | 0 <= i < |r| ensures p(r[i]) {
      assert r[i] in multiset(s);
    }
  }

  /** The elements of `s` whose key is `k`, in order. */
  function WithKey<T>(s: seq<T>, key: T -> int, k: int): seq<T>
  {
    if s == [] then [] else (if key(s[0]) == k then [s[0]] else []) + WithKey(s[1..], key, k)
  }

  /** `WithKey` of a sequence with a known first element. */
  lemma WithKeyCons<T>(y: T, t: seq<T>, key: T -> int, k: int)
    ensures WithKey([y] + t, key, k) == (if key(y) == k then [y] else []) + WithKey(t, key, k)
  {
    assert ([y] + t)[0] == y && ([y] + t)[1..] == t;
  }

  /** Putting the same element in front of two sequences keeps a prefix relation between their `WithKey`s. */
  lemma WithKeyConsStep<T>(y: T, t: seq<T>, u: seq<T>, key: T -> int, k: int, front: seq<T>)
    requires WithKey(t, key, k) == front + WithKey(u, key, k)
    requires front == [] || key(y) != k
    ensures WithKey([y] + t, key, k) == front + WithKey([y] + u, key, k)
  {
    WithKeyCons(y, t, key, k);
    WithKeyCons(y, u, key, k);
    if key(y) == k {
      assert front + WithKey(u, key, k) == WithKey(u, key, k);
    }
  }

  lemma {:induction false} InsertWithKey<T>(x: T, s: seq<T>, key: T -> int, k: int)
    ensures WithKey(Insert(x, s, key), key, k)
         == (if key(x) == k then [x] else []) + WithKey(s, key, k)
  {
    if s == [] || key(x) <= key(s[0]) {
      WithKeyCons(x, s, key, k);
    } else {
      InsertWithKey(x, s[1..], key, k);
      WithKeyConsStep(s[0], Insert(x, s[1..], key), s[1..], key, k, if key(x) == k then [x] else []);
      assert [s[0]] + s[1..] == s;
    }
  }

  /** Stability: elements with equal keys keep their relative order. */
  lemma {:induction false} SortByStable<T>(s: seq<T>, key: T -> int, k: int)
    ensures WithKey(SortBy(s, key), key, k) == WithKey(s, key, k)
  {
    if s != [] {
      SortByStable(s[1..], key, k);
      InsertWithKey(s[0], SortBy(s[1..], key), key, k);
    }
  }

  /** `s.slice(0, n)`. */
  function Take<T>(s: seq<T>, n: nat): (r: seq<T>)
    ensures |r| <= n && |r| <= |s|
    ensures |s| <= n ==> r == s
    ensures |s| > n ==> |r| == n
    ensures forall i :: 0 <= i < |r| ==> r[i] == s[i]
  {
    if |s| <= n then s else s[..n]
  }

  /**
   * The front of a sorted sequence is sorted, and nothing left behind has a
   * smaller key than anything taken.
   */
  lemma TakeOfSorted<T>(s: seq<T>, key: T -> int, n: nat)
    requires Sorted(s, key)
    ensures Sorted(Take(s, n), key)
    ensures forall i, x :: 0 <= i < |Take(s, n)| && x in s && x !in Take(s, n) ==> key(Take(s, n)[i]) <= key(x)
  {
    var r := Take(s, n);
    forall i, x | 0 <= i < |r| && x in s && x !in r ensures key(r[i]) <= key(x) {
      var j :| 0 <= j < |s| && s[j] == x;
    }
  }
}
