/**
 * `Array.prototype.sort` with a numeric-key comparator. Since ES2019 the
 * sort is stable, so its result is determined: the elements ordered by key,
 * equal keys keeping their input order. `SortBy` computes exactly that as an
 * insertion sort that places each new element after every element whose key
 * is not larger; a comparator `(a, b) => k(b) - k(a)` (descending) is the
 * ascending sort on the negated key.
 */
module Sorting {

  predicate SortedBy<T>(s: seq<T>, key: T -> int)
  {
    forall i, j :: 0 <= i < j < |s| ==> key(s[i]) <= key(s[j])
  }

  /** Inserts `x` into `sorted` after every element whose key is at most `key(x)`. */
  function InsertBy<T>(sorted: seq<T>, x: T, key: T -> int): (r: seq<T>)
    ensures |r| == |sorted| + 1
  {
    if sorted == [] || key(sorted[|sorted| - 1]) <= key(x) then sorted + [x]
    else InsertBy(sorted[..|sorted| - 1], x, key) + [sorted[|sorted| - 1]]
  }

  /** The stable sort of `s` by ascending `key`. */
  function SortBy<T>(s: seq<T>, key: T -> int): (r: seq<T>)
    ensures |r| == |s|
  {
    if s == [] then [] else InsertBy(SortBy(s[..|s| - 1], key), s[|s| - 1], key)
  }

  lemma {:induction false} InsertByPermutes<T>(sorted: seq<T>, x: T, key: T -> int)
    ensures multiset(InsertBy(sorted, x, key)) == multiset(sorted) + multiset{x}
  {
    if !(sorted == [] || key(sorted[|sorted| - 1]) <= key(x)) {
      var front, last := sorted[..|sorted| - 1], sorted[|sorted| - 1];
      InsertByPermutes(front, x, key);
      assert sorted == front + [last];
    }
  }

  lemma {:induction false} InsertByKeepsSorted<T>(sorted: seq<T>, x: T, key: T -> int)
    requires SortedBy(sorted, key)
    ensures SortedBy(InsertBy(sorted, x, key), key)
  {
    if !(sorted == [] || key(sorted[|sorted| - 1]) <= key(x)) {
      var front, last := sorted[..|sorted| - 1], sorted[|sorted| - 1];
      InsertByKeepsSorted(front, x, key);
      InsertByPermutes(front, x, key);
      var r := InsertBy(front, x, key);
      forall i | 0 <= i < |r| ensures key(r[i]) <= key(last) {
        assert r[i] in multiset(front) + multiset{x};
      }
    }
  }

  /** The result of `SortBy` is ordered by key. */
  lemma {:induction false} SortByIsSorted<T>(s: seq<T>, key: T -> int)
    ensures SortedBy(SortBy(s, key), key)
  {
    if s != [] {
      SortByIsSorted(s[..|s| - 1], key);
      InsertByKeepsSorted(SortBy(s[..|s| - 1], key), s[|s| - 1], key);
    }
  }

  /** The result of `SortBy` is a permutation of its input. */
  lemma {:induction false} SortByPermutes<T>(s: seq<T>, key: T -> int)
    ensures multiset(SortBy(s, key)) == multiset(s)
  {
    if s != [] {
      var front := s[..|s| - 1];
      SortByPermutes(front, key);
      InsertByPermutes(SortBy(front, key), s[|s| - 1], key);
      assert s == front + [s[|s| - 1]];
    }
  }

  /** Sorting input that is already in key order changes nothing (stability). */
  lemma {:induction false} SortBySortedIsIdentity<T>(s: seq<T>, key: T -> int)
    requires SortedBy(s, key)
    ensures SortBy(s, key) == s
  {
    if s != [] {
      var front := s[..|s| - 1];
      assert SortedBy(front, key);
      SortBySortedIsIdentity(front, key);
      assert s == front + [s[|s| - 1]];
    }
  }

  /**
   * Where the insertion lands: after the prefix `sorted[..j]` whose last key
   * is at most `key(x)` and before the suffix whose keys all exceed it.
   */
  lemma {:induction false} InsertBySplit<T>(sorted: seq<T>, x: T, key: T -> int, j: nat)
    requires j <= |sorted|
    requires j == 0 || key(sorted[j - 1]) <= key(x)
    requires forall k :: j <= k < |sorted| ==> key(sorted[k]) > key(x)
    ensures InsertBy(sorted, x, key) == sorted[..j] + [x] + sorted[j..]
  {
    if j < |sorted| {
      var front := sorted[..|sorted| - 1];
      InsertBySplit(front, x, key, j);
      assert front[..j] == sorted[..j];
      assert front[j..] + [sorted[|sorted| - 1]] == sorted[j..];
    }
  }

  /**
   * The position of the first element with the smallest key: the element a
   * stable ascending sort puts first.
   */
  function FirstMinIndex<T>(s: seq<T>, key: T -> int): (i: nat)
    requires s != []
    ensures i < |s|
    ensures forall j :: 0 <= j < |s| ==> key(s[i]) <= key(s[j])
    ensures forall j :: 0 <= j < i ==> key(s[j]) > key(s[i])
  {
    if |s| == 1 then 0
    else
      var j := FirstMinIndex(s[..|s| - 1], key);
      if key(s[|s| - 1]) < key(s[j]) then |s| - 1 else j
  }

  lemma {:induction false} InsertByHead<T>(sorted: seq<T>, x: T, key: T -> int)
    requires SortedBy(sorted, key)
    ensures InsertBy(sorted, x, key)[0] == if sorted == [] || key(x) < key(sorted[0]) then x else sorted[0]
  {
    if !(sorted == [] || key(sorted[|sorted| - 1]) <= key(x)) {
      var front := sorted[..|sorted| - 1];
      if front != [] {
        InsertByHead(front, x, key);
      }
    }
  }

  /** `sort(...)[0]` is the first element of least key (stability decides ties). */
  lemma {:induction false} SortByHead<T>(s: seq<T>, key: T -> int)
    requires s != []
    ensures SortBy(s, key)[0] == s[FirstMinIndex(s, key)]
  {
    var front := s[..|s| - 1];
    if front != [] {
      SortByHead(front, key);
      SortByIsSorted(front, key);
      InsertByHead(SortBy(front, key), s[|s| - 1], key);
    }
  }

  /** One step of the in-place sort: shifts larger elements right and drops `a[i]` into the gap. */
  method InsertAt<T>(a: array<T>, i: nat, key: T -> int)
    requires i < a.Length
    modifies a
    ensures a[..i + 1] == InsertBy(old(a[..i]), old(a[i]), key)
    ensures a[i + 1..] == old(a[i + 1..])
  {
    ghost var sorted := a[..i];
    var x := a[i];
    var j := i;
    while j > 0 && key(a[j - 1]) > key(x)
      invariant 0 <= j <= i
      invariant forall k :: 0 <= k < j ==> a[k] == sorted[k]
      invariant forall k :: j < k <= i ==> a[k] == sorted[k - 1]
      invariant forall k :: i < k < a.Length ==> a[k] == old(a[k])
      invariant forall k :: j <= k < i ==> key(sorted[k]) > key(x)
    {
      a[j] := a[j - 1];
      j := j - 1;
    }
    a[j] := x;
    InsertBySplit(sorted, x, key, j);
    ghost var inserted := sorted[..j] + [x] + sorted[j..];
    assert forall k :: 0 <= k <= i ==> a[k] == inserted[k];
    assert a[..i + 1] == inserted;
  }

  /** In-place insertion sort; leaves the array holding `SortBy` of its old contents. */
  method InsertionSortBy<T>(a: array<T>, key: T -> int)
    modifies a
    ensures a[..] == SortBy(old(a[..]), key)
  {
    ghost var input := a[..];
    var i := 0;
    while i < a.Length
      invariant 0 <= i <= a.Length
      invariant a[..i] == SortBy(input[..i], key)
      invariant a[i..] == input[i..]
    {
      assert a[i] == input[i];
      InsertAt(a, i, key);
      assert input[..i + 1][..i] == input[..i];
      assert a[i + 1..] == input[i + 1..];
      i := i + 1;
    }
    assert input[..a.Length] == input;
  }
}
