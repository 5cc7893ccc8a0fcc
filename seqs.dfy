// Sequence operations behind Array.prototype.filter and [...new Set(xs)],
// with the order properties the pages rely on.
module Seqs {

  datatype Option<T> = None | Some(value: T)

  /** r is obtained from s by deleting elements, keeping the order of the rest. */
  predicate Subseq<T(==)>(r: seq<T>, s: seq<T>)
    decreases |s|
  {
    if r == [] then true
    else if s == [] then false
    else if r[0] == s[0] then Subseq(r[1..], s[1..])
    else Subseq(r, s[1..])
  }

  lemma {:induction false} SubseqRefl<T>(s: seq<T>)
    ensures Subseq(s, s)
  {
    if s != [] {
      SubseqRefl(s[1..]);
    }
  }

  /** xs.filter(p). */
  function Filter<T>(s: seq<T>, p: T -> bool): (r: seq<T>)
    ensures |r| <= |s|
    ensures forall i :: 0 <= i < |r| ==> r[i] in s && p(r[i])
    ensures forall i :: 0 <= i < |s| && p(s[i]) ==> s[i] in r
  {
    if s == [] then []
    else if p(s[0]) then [s[0]] + Filter(s[1..], p)
    else Filter(s[1..], p)
  }

  /** An element is in the filtered list exactly when it is in the list and
      satisfies the predicate. */
  lemma FilterIn<T>(s: seq<T>, p: T -> bool)
    ensures forall x :: x in Filter(s, p) <==> x in s && p(x)
  {
    forall x | x in s && p(x)
      ensures x in Filter(s, p)
    {
      var i :| 0 <= i < |s| && s[i] == x;
    }
  }

  /** The filter keeps every copy of each element that passes and no copy of
      one that fails. */
  lemma {:induction false} FilterMultiset<T>(s: seq<T>, p: T -> bool)
    ensures forall x :: multiset(Filter(s, p))[x] == if p(x) then multiset(s)[x] else 0
  {
    if s != [] {
      FilterMultiset(s[1..], p);
      assert s == [s[0]] + s[1..];
      assert multiset(s) == multiset{s[0]} + multiset(s[1..]);
    }
  }

  /** The filter keeps its survivors in their original order. */
  lemma {:induction false} FilterSubseq<T>(s: seq<T>, p: T -> bool)
    ensures Subseq(Filter(s, p), s)
  {
    if s != [] {
      FilterSubseq(s[1..], p);
    }
  }

  /** Filtering twice is filtering by the conjunction. */
  lemma {:induction false} FilterFilter<T>(s: seq<T>, p: T -> bool, q: T -> bool)
    ensures Filter(Filter(s, p), q) == Filter(s, x => p(x) && q(x))
  {
    if s != [] {
      FilterFilter(s[1..], p, q);
      if p(s[0]) {
        assert Filter(s, p) == [s[0]] + Filter(s[1..], p);
        assert ([s[0]] + Filter(s[1..], p))[1..] == Filter(s[1..], p);
      }
    }
  }

  /** Filtering s followed by x is filtering s, then keeping x if it passes. */
  lemma {:induction false} FilterSnoc<T>(s: seq<T>, x: T, p: T -> bool)
    ensures Filter(s + [x], p) == Filter(s, p) + (if p(x) then [x] else [])
  {
    if s == [] {
      assert s + [x] == [x];
    } else {
      assert (s + [x])[1..] == s[1..] + [x];
      FilterSnoc(s[1..], x, p);
    }
  }

  /** A filter keeps a list free of duplicates. */
  lemma {:induction false} FilterNoDups<T>(s: seq<T>, p: T -> bool)
    ensures NoDups(s) ==> NoDups(Filter(s, p))
  {
    if s != [] && NoDups(s) {
      assert NoDups(s[1..]);
      FilterNoDups(s[1..], p);
      assert s[0] !in s[1..];
    }
  }

  /** A filter whose predicate holds everywhere changes nothing. */
  lemma {:induction false} FilterAll<T>(s: seq<T>, p: T -> bool)
    requires forall i :: 0 <= i < |s| ==> p(s[i])
    ensures Filter(s, p) == s
  {
    if s != [] {
      FilterAll(s[1..], p);
      assert s == [s[0]] + s[1..];
    }
  }

  predicate NoDups<T(==)>(s: seq<T>) {
    forall i, j :: 0 <= i < j < |s| ==> s[i] != s[j]
  }

  /** A list without duplicates holds every value at most once. */
  lemma {:induction false} NoDupsMultiplicity<T>(s: seq<T>, x: T)
    requires NoDups(s)
    ensures multiset(s)[x] <= 1
  {
    if s != [] {
      assert s == [s[0]] + s[1..];
      assert NoDups(s[1..]);
      NoDupsMultiplicity(s[1..], x);
      if x == s[0] {
        assert x !in s[1..];
      }
    }
  }

  /** Reordering a list without duplicates leaves it without duplicates. */
  lemma PermutationNoDups<T>(r: seq<T>, s: seq<T>)
    requires multiset(r) == multiset(s) && NoDups(s)
    ensures NoDups(r)
  {
    forall i, j | 0 <= i < j < |r|
      ensures r[i] != r[j]
    {
      if r[i] == r[j] {
        assert r == r[..i] + [r[i]] + r[i + 1..j] + [r[j]] + r[j + 1..];
        assert multiset(r)[r[i]] >= 2;
        NoDupsMultiplicity(s, r[i]);
      }
    }
  }

  /** A list without duplicates has as many elements as its set of values. */
  lemma {:induction false} NoDupsCard<T>(s: seq<T>)
    requires NoDups(s)
    ensures |set x | x in s| == |s|
  {
    if s != [] {
      assert NoDups(s[1..]);
      NoDupsCard(s[1..]);
      assert (set x | x in s) == {s[0]} + (set x | x in s[1..]) by {
        assert s == [s[0]] + s[1..];
      }
    }
  }

  /** A subset is no larger than its superset. */
  lemma SubsetCard<T>(a: set<T>, b: set<T>)
    requires a <= b
    ensures |a| <= |b|
  {
    assert b == a + (b - a);
    assert a !! (b - a);
  }

  /** The elements of a finite set, each once, in some order: the order a
      table scan or a map iteration happens to produce. */
  method SetToSeq<T>(s: set<T>) returns (xs: seq<T>)
    ensures NoDups(xs)
    ensures forall x :: x in xs <==> x in s
  {
    xs := [];
    var todo := s;
    while todo != {}
      invariant todo <= s
      invariant forall x :: x in xs <==> x in s && x !in todo
      invariant NoDups(xs)
      decreases |todo|
    {
      var k :| k in todo;
      xs := xs + [k];
      todo := todo - {k};
    }
  }

  /** The position of the first occurrence of x in s. */
  function FirstIndex<T(==)>(s: seq<T>, x: T): (k: nat)
    requires x in s
    ensures k < |s| && s[k] == x && x !in s[..k]
  {
    if s[0] == x then 0 else 1 + FirstIndex(s[1..], x)
  }

  /** [...new Set(s)]: a JavaScript Set remembers insertion order, so walking s
      from the left and appending each element not yet seen. */
  function Distinct<T(==)>(s: seq<T>): (r: seq<T>)
    ensures forall i :: 0 <= i < |r| ==> r[i] in s
    ensures forall i :: 0 <= i < |s| ==> s[i] in r
    decreases |s|
  {
    if s == [] then []
    else
      var pre := s[..|s| - 1];
      var init := Distinct(pre);
      var last := s[|s| - 1];
      assert forall i :: 0 <= i < |s| - 1 ==> s[i] == pre[i];
      if last in init then init else init + [last]
  }

  lemma {:induction false} DistinctNoDups<T>(s: seq<T>)
    ensures NoDups(Distinct(s))
    decreases |s|
  {
    if s != [] {
      DistinctNoDups(s[..|s| - 1]);
    }
  }

  /** The first occurrence of x in a prefix of s is its first occurrence in s. */
  lemma FirstIndexPrefix<T>(s: seq<T>, n: nat, x: T)
    requires n <= |s| && x in s[..n]
    ensures FirstIndex(s, x) == FirstIndex(s[..n], x)
  {
    var k := FirstIndex(s[..n], x);
    assert s[..n][..k] == s[..k];
  }

  /** Distinct lists the elements of s in the order of their first occurrences. */
  lemma {:induction false} DistinctFirstOccurrenceOrder<T>(s: seq<T>)
    ensures forall i, j :: 0 <= i < j < |Distinct(s)| ==>
      FirstIndex(s, Distinct(s)[i]) < FirstIndex(s, Distinct(s)[j])
    decreases |s|
  {
    if s != [] {
      var pre := s[..|s| - 1];
      var last := s[|s| - 1];
      var init := Distinct(pre);
      var r := Distinct(s);
      assert s == pre + [last];
      DistinctFirstOccurrenceOrder(pre);
      assert r == if last in init then init else init + [last];
      forall i, j | 0 <= i < j < |r|
        ensures FirstIndex(s, r[i]) < FirstIndex(s, r[j])
      {
        FirstIndexSnoc(pre, last, init[i]);
        if j < |init| {
          FirstIndexSnoc(pre, last, init[j]);
        } else {
          FirstIndexSnoc(pre, last, last);
        }
      }
    }
  }

  /** Appending an element keeps the first occurrences inside the prefix, and
      a new element first occurs at the end. */
  lemma FirstIndexSnoc<T>(pre: seq<T>, last: T, x: T)
    requires x in pre || x == last
    ensures x in pre ==> FirstIndex(pre + [last], x) == FirstIndex(pre, x) < |pre|
    ensures x !in pre ==> FirstIndex(pre + [last], x) == |pre|
  {
    var s := pre + [last];
    assert s[..|pre|] == pre;
    if x in pre {
      FirstIndexPrefix(s, |pre|, x);
    } else {
      assert forall k :: 0 <= k < |pre| ==> s[k] == pre[k];
    }
  }

  /** Distinct keeps the order of s. */
  lemma {:induction false} DistinctSubseq<T>(s: seq<T>)
    ensures Subseq(Distinct(s), s)
    decreases |s|
  {
    if s != [] {
      var pre := s[..|s| - 1];
      var last := s[|s| - 1];
      DistinctSubseq(pre);
      assert s == pre + [last];
      SubseqAppend(Distinct(pre), pre, [last]);
      if last !in Distinct(pre) {
        SubseqAppendBoth(Distinct(pre), pre, last);
      }
    }
  }

  lemma {:induction false} SubseqAppend<T>(r: seq<T>, s: seq<T>, t: seq<T>)
    requires Subseq(r, s)
    ensures Subseq(r, s + t)
    decreases |s|
  {
    if r != [] && s != [] {
      assert (s + t)[1..] == s[1..] + t;
      if r[0] == s[0] {
        SubseqAppend(r[1..], s[1..], t);
      } else {
        SubseqAppend(r, s[1..], t);
      }
    }
  }

  lemma {:induction false} SubseqAppendBoth<T>(r: seq<T>, s: seq<T>, x: T)
    requires Subseq(r, s)
    ensures Subseq(r + [x], s + [x])
    decreases |s|
  {
    if r == [] {
      assert r + [x] == [x];
      SubseqSingleton(s, x);
    } else {
      assert s != [];
      assert (r + [x])[1..] == r[1..] + [x];
      assert (s + [x])[1..] == s[1..] + [x];
      if r[0] == s[0] {
        SubseqAppendBoth(r[1..], s[1..], x);
      } else {
        SubseqAppendBoth(r, s[1..], x);
      }
    }
  }

  lemma {:induction false} SubseqSingleton<T>(s: seq<T>, x: T)
    ensures Subseq([x], s + [x])
    decreases |s|
  {
    if s != [] {
      assert (s + [x])[1..] == s[1..] + [x];
      SubseqSingleton(s[1..], x);
    }
  }

  /** Dropping the head of a subsequence keeps it a subsequence. */
  lemma {:induction false} SubseqTail<T>(r: seq<T>, s: seq<T>)
    requires r != [] && Subseq(r, s)
    ensures Subseq(r[1..], s)
    decreases |s|, 1
  {
    if r[0] == s[0] {
      SubseqCons(r[1..], s);
    } else {
      SubseqTail(r, s[1..]);
      SubseqCons(r[1..], s);
    }
  }

  /** A subsequence of the tail of s is a subsequence of s. */
  lemma {:induction false} SubseqCons<T>(r: seq<T>, s: seq<T>)
    requires s != [] && Subseq(r, s[1..])
    ensures Subseq(r, s)
    decreases |s|, 0
  {
    if r != [] && r[0] == s[0] {
      SubseqTail(r, s[1..]);
    }
  }

  lemma {:induction false} SubseqTrans<T>(a: seq<T>, b: seq<T>, c: seq<T>)
    requires Subseq(a, b) && Subseq(b, c)
    ensures Subseq(a, c)
    decreases |c|
  {
    if a != [] {
      if b[0] == c[0] {
        if a[0] == b[0] {
          SubseqTrans(a[1..], b[1..], c[1..]);
        } else {
          SubseqTrans(a, b[1..], c[1..]);
        }
      } else {
        SubseqTrans(a, b, c[1..]);
        if a[0] == c[0] {
          SubseqTail(a, c[1..]);
        }
      }
    }
  }
}
