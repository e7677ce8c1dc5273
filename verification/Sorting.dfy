/** Stable sorting by a key, as the source's `sort_by_key` does. */
module Sorting {

  ghost predicate SortedBy<T>(s: seq<T>, key: T -> int) {
    forall i, j :: 0 <= i < j < |s| ==> key(s[i]) <= key(s[j])
  }

  /** Where `x` goes: after all elements with a smaller or equal key. */
  function Position<T>(s: seq<T>, x: T, key: T -> int, n: nat): (p: nat)
    requires n <= |s| && SortedBy(s, key)
    ensures p <= n && forall i :: 0 <= i < n ==> (key(s[i]) <= key(x) <==> i < p)
  {
    if n == 0 || key(s[n - 1]) <= key(x) then n else Position(s, x, key, n - 1)
  }

  lemma InsertedSorted<T>(s: seq<T>, x: T, key: T -> int, p: nat)
    requires SortedBy(s, key) && p <= |s|
    requires forall i :: 0 <= i < |s| ==> (key(s[i]) <= key(x) <==> i < p)
    ensures SortedBy(s[..p] + [x] + s[p..], key)
  {
  }

  lemma InsertedElements<T>(s: seq<T>, x: T, p: nat)
    requires p <= |s|
    ensures multiset(s[..p] + [x] + s[p..]) == multiset(s + [x])
  {
    assert s == s[..p] + s[p..];
  }

  /** The sequence ordered by key, equal keys in their original order. */
  function StableSort<T>(s: seq<T>, key: T -> int): (r: seq<T>)
    ensures SortedBy(r, key) && multiset(r) == multiset(s)
  {
    if s == [] then []
    else
      var init, x := StableSort(s[..|s| - 1], key), s[|s| - 1];
      var p := Position(init, x, key, |init|);
      InsertedSorted(init, x, key, p);
      InsertedElements(init, x, p);
      assert s == s[..|s| - 1] + [x];
      init[..p] + [x] + init[p..]
  }

  lemma SortStep<T>(s: seq<T>, key: T -> int, i: nat)
    requires i < |s|
    ensures var r := StableSort(s[..i], key);
            var p := Position(r, s[i], key, |r|);
            StableSort(s[..i + 1], key) == r[..p] + [s[i]] + r[p..]
  {
    hide SortedBy;
    assert s[..i + 1][..i] == s[..i];
  }

  /** The same elements, ordered by key; the sort is stable. */
  method SortByKey<T(==)>(s: seq<T>, key: T -> int) returns (r: seq<T>)
    ensures SortedBy(r, key) && multiset(r) == multiset(s) && r == StableSort(s, key)
  {
    hide SortedBy;
    r := [];
    for i := 0 to |s|
      invariant r == StableSort(s[..i], key)
    {
      SortStep(s, key, i);
      var p := Position(r, s[i], key, |r|);
      r := r[..p] + [s[i]] + r[p..];
    }
    assert s[..|s|] == s;
  }

  lemma SameElements<T>(a: seq<T>, b: seq<T>)
    requires multiset(a) == multiset(b)
    ensures |a| == |b| && forall x :: x in a <==> x in b
  {
    assert |multiset(a)| == |multiset(b)|;
    assert forall x :: x in a <==> x in multiset(a);
    assert forall x :: x in b <==> x in multiset(b);
  }
  ghost predicate Distinct<T>(s: seq<T>) {
    forall i, j :: 0 <= i < j < |s| ==> s[i] != s[j]
  }

  lemma OccursTwice<T>(s: seq<T>, i: nat, j: nat)
    requires i < j < |s| && s[i] == s[j]
    ensures multiset(s)[s[i]] >= 2
  {
    assert s == s[..j] + s[j..];
    assert s[j..] == [s[j]] + s[j + 1..];
    assert s[..j][i] == s[i];
    assert s[i] in multiset(s[..j]);
  }

  lemma OccursOnce<T>(s: seq<T>, x: T)
    requires Distinct(s)
    ensures multiset(s)[x] <= 1
  {
    if x in s {
      var k :| 0 <= k < |s| && s[k] == x;
      assert s == s[..k] + [s[k]] + s[k + 1..];
      assert x !in s[..k] && x !in s[k + 1..];
      assert x !in multiset(s[..k]) && x !in multiset(s[k + 1..]);
    }
  }

  /** Sorting introduces no repetition. */
  lemma DistinctPermuted<T>(a: seq<T>, b: seq<T>)
    requires Distinct(a) && multiset(a) == multiset(b)
    ensures Distinct(b)
  {
    forall i, j | 0 <= i < j < |b|
      ensures b[i] != b[j]
    {
      OccursOnce(a, b[i]);
      if b[i] == b[j] {
        OccursTwice(b, i, j);
      }
    }
  }
}
