/** Python's stable sort by an integer key (`list.sort(key=...)`,
    `sorted(..., key=...)`), as insertion sort.

    `SortBy` is the specification; `SortInPlace` is the in-place algorithm on
    an array, proved to produce exactly `SortBy` of the old contents. A
    descending sort with `reverse=True` stays stable in Python, so it is
    `SortBy` with the negated key. */
module Sorting {

  /** Insert `x` after the last element whose key is at most `key(x)`. */
  function Insert<T>(s: seq<T>, x: T, key: T -> int): seq<T>
  {
    if s == [] then [x]
    else if key(s[|s| - 1]) > key(x) then Insert(s[..|s| - 1], x, key) + [s[|s| - 1]]
    else s + [x]
  }

  function SortBy<T>(s: seq<T>, key: T -> int): seq<T>
  {
    if s == [] then [] else Insert(SortBy(s[..|s| - 1], key), s[|s| - 1], key)
  }

  ghost predicate SortedBy<T>(s: seq<T>, key: T -> int)
  {
    forall i, j :: 0 <= i < j < |s| ==> key(s[i]) <= key(s[j])
  }

  /** `s[:n]` */
  function Take<T>(s: seq<T>, n: nat): (r: seq<T>)
    ensures |r| == (if |s| <= n then |s| else n) && r == s[..|r|]
  {
    if |s| <= n then s else s[..n]
  }

  /** Keeping the first elements keeps a prefix of each key's elements. */
  lemma {:induction false} WithKeyPrefix<T>(s: seq<T>, n: nat, key: T -> int, k: int)
    requires n <= |s|
    ensures WithKey(s[..n], key, k) <= WithKey(s, key, k)
    decreases |s| - n
  {
    if n < |s| {
      var init := s[..|s| - 1];
      WithKeyPrefix(init, n, key, k);
      assert init[..n] == s[..n];
    } else {
      assert s[..n] == s;
    }
  }

  /** The elements of `s` whose key is `k`, in order. */
  function WithKey<T>(s: seq<T>, key: T -> int, k: int): seq<T>
  {
    if s == [] then []
    else WithKey(s[..|s| - 1], key, k) + (if key(s[|s| - 1]) == k then [s[|s| - 1]] else [])
  }

  lemma {:induction false} WithKeyAppend<T>(a: seq<T>, b: seq<T>, key: T -> int, k: int)
    ensures WithKey(a + b, key, k) == WithKey(a, key, k) + WithKey(b, key, k)
    decreases |b|
  {
    if b == [] {
      assert a + b == a;
    } else {
      assert (a + b)[..|a + b| - 1] == a + b[..|b| - 1];
      WithKeyAppend(a, b[..|b| - 1], key, k);
    }
  }

  lemma {:induction false} InsertPerm<T>(s: seq<T>, x: T, key: T -> int)
    ensures multiset(Insert(s, x, key)) == multiset(s) + multiset{x}
    decreases |s|
  {
    if s != [] && key(s[|s| - 1]) > key(x) {
      InsertPerm(s[..|s| - 1], x, key);
      assert s == s[..|s| - 1] + [s[|s| - 1]];
    }
  }

  lemma {:induction false} InsertBound<T>(s: seq<T>, x: T, key: T -> int, b: int)
    requires forall i :: 0 <= i < |s| ==> key(s[i]) <= b
    requires key(x) <= b
    ensures forall i :: 0 <= i < |Insert(s, x, key)| ==> key(Insert(s, x, key)[i]) <= b
    decreases |s|
  {
    if s != [] && key(s[|s| - 1]) > key(x) {
      InsertBound(s[..|s| - 1], x, key, b);
    }
  }

  lemma {:induction false} InsertSorted<T>(s: seq<T>, x: T, key: T -> int)
    requires SortedBy(s, key)
    ensures SortedBy(Insert(s, x, key), key)
    decreases |s|
  {
    if s != [] && key(s[|s| - 1]) > key(x) {
      var init, last := s[..|s| - 1], s[|s| - 1];
      InsertSorted(init, x, key);
      InsertBound(init, x, key, key(last));
    }
  }

  lemma {:induction false} InsertWithKey<T>(s: seq<T>, x: T, key: T -> int, k: int)
    requires SortedBy(s, key)
    ensures WithKey(Insert(s, x, key), key, k) == WithKey(s, key, k) + WithKey([x], key, k)
    decreases |s|
  {
    if s == [] {
      assert Insert(s, x, key) == [x];
    } else if key(s[|s| - 1]) > key(x) {
      var init, last := s[..|s| - 1], s[|s| - 1];
      assert s == init + [last];
      InsertWithKey(init, x, key, k);
      var r := Insert(init, x, key);
      WithKeyAppend(r, [last], key, k);
      WithKeyAppend(init, [last], key, k);
    } else {
      WithKeyAppend(s, [x], key, k);
    }
  }

  lemma {:induction false} SortByFacts<T>(s: seq<T>, key: T -> int, k: int)
    ensures SortedBy(SortBy(s, key), key)
    ensures multiset(SortBy(s, key)) == multiset(s)
    ensures WithKey(SortBy(s, key), key, k) == WithKey(s, key, k)
    decreases |s|
  {
    if s != [] {
      var init, last := s[..|s| - 1], s[|s| - 1];
      assert s == init + [last];
      SortByFacts(init, key, k);
      InsertPerm(SortBy(init, key), last, key);
      InsertSorted(SortBy(init, key), last, key);
      InsertWithKey(SortBy(init, key), last, key, k);
      WithKeyAppend(init, [last], key, k);
    }
  }

  /** `SortBy` is a sorted permutation of its input. */
  lemma SortByIsSortedPermutation<T>(s: seq<T>, key: T -> int)
    ensures SortedBy(SortBy(s, key), key)
    ensures multiset(SortBy(s, key)) == multiset(s)
    ensures |SortBy(s, key)| == |s|
  {
    SortByFacts(s, key, 0);
    assert |SortBy(s, key)| == |multiset(SortBy(s, key))|;
  }

  /** `SortBy` is stable: the elements sharing a key keep their input order. */
  lemma SortByIsStable<T>(s: seq<T>, key: T -> int, k: int)
    ensures WithKey(SortBy(s, key), key, k) == WithKey(s, key, k)
  {
    SortByFacts(s, key, k);
  }

  lemma SortByStep<T>(s: seq<T>, i: nat, key: T -> int)
    requires i < |s|
    ensures SortBy(s[..i + 1], key) == Insert(SortBy(s[..i], key), s[i], key)
  {
    assert s[..i + 1][..i] == s[..i];
  }

  /** `x` lands after the elements with a key at most `key(x)` and before
      the trailing run of larger keys. */
  lemma {:induction false} InsertSplit<T>(p: seq<T>, j: nat, x: T, key: T -> int)
    requires j <= |p| && (j == 0 || key(p[j - 1]) <= key(x))
    requires forall k :: j <= k < |p| ==> key(p[k]) > key(x)
    ensures Insert(p, x, key) == p[..j] + [x] + p[j..]
    decreases |p|
  {
    if j < |p| {
      var init := p[..|p| - 1];
      InsertSplit(init, j, x, key);
      assert init[..j] == p[..j];
      assert init[j..] + [p[|p| - 1]] == p[j..];
    } else {
      assert p[..j] == p;
    }
  }

  /** Element-wise description of the array after the hole at `j` is filled,
      as a sequence equation. */
  lemma FillHole<T>(t: seq<T>, p: seq<T>, j: nat, x: T)
    requires j <= |p| < |t|
    requires forall k :: 0 <= k < j ==> t[k] == p[k]
    requires t[j] == x
    requires forall k :: j < k <= |p| ==> t[k] == p[k - 1]
    ensures t[..|p| + 1] == p[..j] + [x] + p[j..]
  {
  }

  /** The inner loop of insertion sort: every element of the sorted prefix
      `a[..i]` whose key exceeds `key(x)` moves one place right, leaving a
      hole at `j`. */
  method OpenHole<T>(a: array<T>, i: nat, x: T, key: T -> int) returns (j: nat)
    requires i < a.Length
    modifies a
    ensures j <= i
    ensures forall k :: 0 <= k < j ==> a[k] == old(a[k])
    ensures forall k :: j < k <= i ==> a[k] == old(a[k - 1])
    ensures forall k :: i < k < a.Length ==> a[k] == old(a[k])
    ensures Insert(old(a[..i]), x, key) == old(a[..i])[..j] + [x] + old(a[..i])[j..]
  {
    ghost var p := a[..i];
    j := i;
    while j > 0 && key(a[j - 1]) > key(x)
      invariant 0 <= j <= i
      invariant forall k :: 0 <= k < j ==> a[k] == p[k]
      invariant forall k :: j < k <= i ==> a[k] == p[k - 1]
      invariant forall k :: i < k < a.Length ==> a[k] == old(a[k])
      invariant forall k :: j <= k < i ==> key(p[k]) > key(x)
    {
      a[j] := a[j - 1];
      j := j - 1;
    }
    InsertSplit(p, j, x, key);
  }

  /** One step of insertion sort: `a[i]` moves left past every larger key
      in the sorted prefix `a[..i]`. */
  method InsertAt<T>(a: array<T>, i: nat, key: T -> int)
    requires i < a.Length
    modifies a
    ensures a[..i + 1] == Insert(old(a[..i]), old(a[i]), key)
    ensures a[i + 1..] == old(a[i + 1..])
  {
    ghost var p := a[..i];
    var x := a[i];
    var j := OpenHole(a, i, x, key);
    a[j] := x;
    FillHole(a[..], p, j, x);
    assert forall k :: i < k < a.Length ==> a[k] == old(a[k]);
  }

  /** An in-place stable insertion sort; it has the same result as the
      stable `list.sort(key=...)`. */
  method SortInPlace<T>(a: array<T>, key: T -> int)
    modifies a
    ensures a[..] == SortBy(old(a[..]), key)
  {
    ghost var orig := a[..];
    var i := 0;
    while i < a.Length
      invariant 0 <= i <= a.Length
      invariant a[..i] == SortBy(orig[..i], key)
      invariant a[i..] == orig[i..]
    {
      assert a[i] == orig[i];
      InsertAt(a, i, key);
      SortByStep(orig, i, key);
      i := i + 1;
    }
    assert orig[..a.Length] == orig;
  }
}
