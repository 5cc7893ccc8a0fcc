// Array.prototype.sort with a comparator, as used by sortByKey, and the
// database's ORDER BY: an in-place insertion sort over an array.
module Sorting {

  /** le is a total preorder: any two elements compare, and comparisons chain. */
  ghost predicate TotalPreorder<T(!new)>(le: (T, T) -> bool) {
    && (forall x, y :: le(x, y) || le(y, x))
    && (forall x, y, z :: le(x, y) && le(y, z) ==> le(x, z))
  }

  /** Every element is le every later one. */
  predicate Sorted<T>(s: seq<T>, le: (T, T) -> bool) {
    forall i, j :: 0 <= i < j < |s| ==> le(s[i], s[j])
  }

  /** Sorts a in place into a permutation of its old contents. */
  method InsertionSort<T(!new)>(a: array<T>, le: (T, T) -> bool)
    requires TotalPreorder(le)
    modifies a
    ensures Sorted(a[..], le)
    ensures multiset(a[..]) == multiset(old(a[..]))
  {
    var i := 0;
    while i < a.Length
      invariant 0 <= i <= a.Length
      invariant Sorted(a[..i], le)
      invariant multiset(a[..]) == multiset(old(a[..]))
    {
      InsertLast(a, i, le);
      i := i + 1;
    }
    assert a[..a.Length] == a[..];
  }

  /** Moves a[i] left past the elements greater than it, so that the first
      i + 1 elements, of which the first i were sorted, are sorted. */
  method InsertLast<T(!new)>(a: array<T>, i: nat, le: (T, T) -> bool)
    requires TotalPreorder(le) && i < a.Length && Sorted(a[..i], le)
    modifies a
    ensures Sorted(a[..i + 1], le)
    ensures multiset(a[..]) == multiset(old(a[..]))
  {
    var j := i;
    while j > 0 && !le(a[j - 1], a[j])
      invariant 0 <= j <= i
      invariant multiset(a[..]) == multiset(old(a[..]))
      invariant forall k, l :: 0 <= k < l <= i && k != j && l != j ==> le(a[k], a[l])
      invariant forall l :: j < l <= i ==> le(a[j], a[l])
    {
      Swap(a, j - 1, j);
      j := j - 1;
    }
    forall k | 0 <= k < j
      ensures le(a[k], a[j])
    {
      if k < j - 1 {
        assert le(a[k], a[j - 1]);
      }
    }
  }

  /** Exchanges two elements. */
  method Swap<T>(a: array<T>, x: nat, y: nat)
    requires x < a.Length && y < a.Length
    modifies a
    ensures a[..] == old(a[..])[x := old(a[y])][y := old(a[x])]
    ensures multiset(a[..]) == multiset(old(a[..]))
  {
    a[x], a[y] := a[y], a[x];
  }

  /** A contiguous piece of a sorted sequence is sorted. */
  lemma SortedSlice<T>(s: seq<T>, le: (T, T) -> bool, lo: nat, hi: nat)
    requires Sorted(s, le) && lo <= hi <= |s|
    ensures Sorted(s[lo..hi], le)
  {
    forall i, j | 0 <= i < j < hi - lo
      ensures le(s[lo..hi][i], s[lo..hi][j])
    {
      assert s[lo..hi][i] == s[lo + i] && s[lo..hi][j] == s[lo + j];
    }
  }

  /** A prefix of a sorted sequence holds every element that comes before
      some element it leaves out. */
  lemma SortedPrefix<T>(s: seq<T>, le: (T, T) -> bool, n: nat, x: T)
    requires Sorted(s, le) && n <= |s| && x in s
    ensures x in s[..n] || forall i :: 0 <= i < n ==> le(s[i], x)
  {
    var k :| 0 <= k < |s| && s[k] == x;
    if k < n {
      assert s[..n][k] == x;
    }
  }

  /** The first n elements of a sorted copy of s: the n smallest under le. */
  method SortedTop<T(!new)>(s: seq<T>, le: (T, T) -> bool, n: nat) returns (r: seq<T>)
    requires TotalPreorder(le)
    ensures |r| == if |s| < n then |s| else n
    ensures Sorted(r, le)
    ensures multiset(r) <= multiset(s)
    ensures forall x :: x in s ==> x in r || forall i :: 0 <= i < |r| ==> le(r[i], x)
  {
    var sorted := SortedCopy(s, le);
    var m := if |sorted| < n then |sorted| else n;
    assert |sorted| == |s| by { PermutationMembers(sorted, s); }
    PrefixOfSorted(sorted, s, le, m);
    r := sorted[..m];
  }

  /** A prefix of a sorted permutation of s is sorted, drawn from s, and no
      element of s it leaves out comes before any element it keeps. */
  lemma PrefixOfSorted<T>(sorted: seq<T>, s: seq<T>, le: (T, T) -> bool, m: nat)
    requires Sorted(sorted, le) && multiset(sorted) == multiset(s) && m <= |sorted|
    ensures Sorted(sorted[..m], le)
    ensures multiset(sorted[..m]) <= multiset(s)
    ensures forall x :: x in s ==> x in sorted[..m] || forall i :: 0 <= i < m ==> le(sorted[i], x)
  {
    SortedSlice(sorted, le, 0, m);
    assert sorted[0..m] == sorted[..m];
    assert sorted == sorted[..m] + sorted[m..];
    forall x | x in s
      ensures x in sorted[..m] || forall i :: 0 <= i < m ==> le(sorted[i], x)
    {
      assert x in multiset(sorted);
      SortedPrefix(sorted, le, m, x);
    }
  }

  /** A permutation has the same length and the same elements. */
  lemma PermutationMembers<T>(r: seq<T>, s: seq<T>)
    requires multiset(r) == multiset(s)
    ensures |r| == |s|
    ensures forall x :: x in r <==> x in s
  {
    assert |r| == |multiset(r)|;
    forall x ensures x in r <==> x in s {
      assert x in r <==> x in multiset(r);
      assert x in s <==> x in multiset(s);
    }
  }

  /** seq-level entry point: copies s into a fresh array and sorts the copy. */
  method SortedCopy<T(!new)>(s: seq<T>, le: (T, T) -> bool) returns (r: seq<T>)
    requires TotalPreorder(le)
    ensures Sorted(r, le)
    ensures multiset(r) == multiset(s)
  {
    var a := new T[|s|](i requires 0 <= i < |s| => s[i]);
    assert a[..] == s;
    InsertionSort(a, le);
    r := a[..];
  }
}
