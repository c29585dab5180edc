/**
 * Insertion-ordered collections. JavaScript's `Map` and the string-keyed
 * records the source builds iterate their keys in the order they were first
 * inserted; `Distinct` is that order for a sequence of keys, and `Table` is
 * a map paired with it.
 */
module OrderedMaps {

  predicate NoDuplicates<K(==)>(s: seq<K>)
  {
    forall i, j :: 0 <= i < j < |s| ==> s[i] != s[j]
  }

  /** The position of the first occurrence of `x` in `s`. */
  function FirstIndex<K(==)>(s: seq<K>, x: K): (i: nat)
    requires x in s
    ensures i < |s| && s[i] == x
    ensures forall j :: 0 <= j < i ==> s[j] != x
  {
    if s[0] == x then 0 else 1 + FirstIndex(s[1..], x)
  }

  /** The distinct elements of `s`, each at the place it is first seen. */
  function Distinct<K(==)>(s: seq<K>): (d: seq<K>)
    ensures forall i :: 0 <= i < |s| ==> s[i] in d
    ensures forall i :: 0 <= i < |d| ==> d[i] in s
    ensures NoDuplicates(d)
  {
    if s == [] then []
    else
      var front := s[..|s| - 1];
      assert s == front + [s[|s| - 1]];
      var d := Distinct(front);
      if s[|s| - 1] in d then d else d + [s[|s| - 1]]
  }

  lemma FirstIndexInPrefix<K>(s: seq<K>, n: nat, x: K)
    requires n <= |s| && x in s[..n]
    ensures x in s && FirstIndex(s, x) == FirstIndex(s[..n], x)
  {
    var i' := FirstIndex(s[..n], x);
    assert s[i'] == s[..n][i'] == x;
    var i := FirstIndex(s, x);
    assert i <= i';
    assert s[..n][i] == x;
  }

  /** Keys come out of `Distinct` in the order of their first occurrences. */
  lemma {:induction false} DistinctInFirstSeenOrder<K>(s: seq<K>)
    ensures forall i, j :: 0 <= i < j < |Distinct(s)| ==>
      FirstIndex(s, Distinct(s)[i]) < FirstIndex(s, Distinct(s)[j])
  {
    if s != [] {
      var n := |s| - 1;
      var front := s[..n];
      var d0 := Distinct(front);
      var d := Distinct(s);
      DistinctInFirstSeenOrder(front);
      forall i, j | 0 <= i < j < |d|
        ensures FirstIndex(s, d[i]) < FirstIndex(s, d[j])
      {
        assert d[i] in d0;
        FirstIndexInPrefix(s, n, d[i]);
        if j < |d0| {
          FirstIndexInPrefix(s, n, d[j]);
        } else {
          assert d[j] == s[n] && s[n] !in front;
          assert FirstIndex(s, d[j]) == n;
        }
      }
    }
  }

  /** A string-keyed `Map` together with its key insertion order. */
  datatype Table<V> = Table(order: seq<string>, entries: map<string, V>) {

    ghost predicate Valid()
    {
      NoDuplicates(order) && (forall k :: k in entries <==> k in order)
    }

    /** `Map.prototype.set`: a new key goes last, an existing key keeps its place. */
    function Put(key: string, value: V): (t: Table<V>)
      ensures Valid() ==> t.Valid()
      ensures t.entries == entries[key := value]
      ensures t.order == if key in entries then order else order + [key]
    {
      if key in entries then Table(order, entries[key := value])
      else Table(order + [key], entries[key := value])
    }
  }

  /** Each element of `s` with its number of occurrences. */
  function CountMap(s: seq<string>): map<string, nat>
  {
    map x | x in s :: multiset(s)[x]
  }

  /** Each element of `s` with its number of occurrences, in first-seen order. */
  function Counts(s: seq<string>): Table<nat>
  {
    Table(Distinct(s), CountMap(s))
  }

  /** Nothing counted yet: the empty table. */
  lemma CountsEmpty()
    ensures Counts([]) == Table([], map[])
  {
    assert CountMap([]) == map[];
  }

  /** Counting one more element `x` changes only the count of `x`, to one more than before. */
  lemma CountMapStepKey(s: seq<string>, x: string, m: string)
    ensures m in CountMap(s + [x]) <==> m in CountMap(s) || m == x
    ensures m in CountMap(s + [x]) ==>
      CountMap(s + [x])[m] == (if m in CountMap(s) then CountMap(s)[m] else 0) + (if m == x then 1 else 0)
  {
    var t := s + [x];
    assert multiset(t)[m] == multiset(s)[m] + (if m == x then 1 else 0);
  }

  lemma CountMapStep(s: seq<string>, x: string)
    ensures CountMap(s + [x]) == CountMap(s)[x := (if x in CountMap(s) then CountMap(s)[x] else 0) + 1]
  {
    SameCounts(CountMap(s + [x]), CountMap(s), s, x);
  }

  lemma SameCounts(h: map<string, nat>, c: map<string, nat>, s: seq<string>, x: string)
    requires h == CountMap(s + [x]) && c == CountMap(s)
    ensures h == c[x := (if x in c then c[x] else 0) + 1]
  {
    var e := c[x := (if x in c then c[x] else 0) + 1];
    forall m | m in h ensures m in e && h[m] == e[m] {
      CountMapStepKey(s, x, m);
    }
    forall m | m in e ensures m in h {
      CountMapStepKey(s, x, m);
    }
  }

  lemma DistinctStep(s: seq<string>, x: string)
    ensures Distinct(s + [x]) == if x in Distinct(s) then Distinct(s) else Distinct(s) + [x]
  {
    var t := s + [x];
    assert t[..|t| - 1] == s;
  }

  /** Putting each key of `s` in turn into a table lists its keys as `Distinct(s)`. */
  lemma PutKeepsDistinct<V>(t: Table<V>, s: seq<string>, x: string, v: V)
    requires t.Valid() && t.order == Distinct(s)
    ensures t.Put(x, v).order == Distinct(s + [x])
  {
    DistinctStep(s, x);
  }

  /** Counting one more element adds one to its count, starting from 0. */
  lemma CountsStep(s: seq<string>, x: string)
    ensures var c := Counts(s);
      Counts(s + [x]) == c.Put(x, (if x in c.entries then c.entries[x] else 0) + 1)
  {
    DistinctStep(s, x);
    CountMapStep(s, x);
  }
}
