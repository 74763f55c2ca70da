/** Sequence facts used by the row filters: membership, order and duplicates. */
module Seqs {

  /** No element occurs twice. */
  predicate NoDup<T(==)>(s: seq<T>) {
    forall i, j :: 0 <= i < j < |s| ==> s[i] != s[j]
  }

  /** The set of elements of `s`. */
  function Elems<T>(s: seq<T>): set<T> {
    set x | x in s
  }

  /** `a` is obtained from `b` by deleting elements, keeping the order of the rest. */
  predicate IsSubsequence<T(==)>(a: seq<T>, b: seq<T>)
    decreases |b|
  {
    |a| == 0 ||
    (|b| > 0 && ((a[0] == b[0] && IsSubsequence(a[1..], b[1..])) || IsSubsequence(a, b[1..])))
  }

  /** A subsequence takes its elements from the sequence and is no longer than it. */
  lemma {:induction false} SubsequenceMembers<T>(a: seq<T>, b: seq<T>)
    requires IsSubsequence(a, b)
    ensures forall x :: x in a ==> x in b
    ensures |a| <= |b|
    decreases |b|
  {
    if |a| > 0 {
      if a[0] == b[0] && IsSubsequence(a[1..], b[1..]) {
        SubsequenceMembers(a[1..], b[1..]);
        forall x | x in a ensures x in b {
          if x != a[0] {
            assert x in a[1..];
          }
        }
      } else {
        SubsequenceMembers(a, b[1..]);
      }
    }
  }

  /** The elements of `s` that satisfy `p`, in their original order: a boolean row mask. */
  function Filter<T>(s: seq<T>, p: T -> bool): (r: seq<T>)
    ensures forall i :: 0 <= i < |r| ==> r[i] in s && p(r[i])
    ensures forall i :: 0 <= i < |s| && p(s[i]) ==> s[i] in r
    decreases |s|
  {
    if |s| == 0 then []
    else if p(s[0]) then [s[0]] + Filter(s[1..], p)
    else Filter(s[1..], p)
  }

  /** A mask keeps the selected elements in their original order. */
  lemma {:induction false} FilterSubsequence<T>(s: seq<T>, p: T -> bool)
    ensures IsSubsequence(Filter(s, p), s)
    decreases |s|
  {
    if |s| > 0 {
      FilterSubsequence(s[1..], p);
      if p(s[0]) {
        assert Filter(s, p)[1..] == Filter(s[1..], p);
      }
    }
  }

  /** `f` applied to every element: `Series.apply`. */
  function Map<T, U>(s: seq<T>, f: T -> U): (r: seq<U>)
    ensures |r| == |s|
    ensures forall i :: 0 <= i < |s| ==> r[i] == f(s[i])
  {
    seq(|s|, i requires 0 <= i < |s| => f(s[i]))
  }

  /** Masking the images on `q` is mapping the elements selected by `p`, when `q` holds of an
      image exactly when `p` holds of the element. */
  lemma {:induction false} FilterMap<T, U>(s: seq<T>, f: T -> U, p: T -> bool, q: U -> bool)
    requires forall x :: q(f(x)) == p(x)
    ensures Filter(Map(s, f), q) == Map(Filter(s, p), f)
    decreases |s|
  {
    if |s| > 0 {
      var ms := Map(s, f);
      assert ms[1..] == Map(s[1..], f);
      assert q(ms[0]) == p(s[0]);
      FilterMap(s[1..], f, p, q);
      if p(s[0]) {
        MapCons(s[0], Filter(s[1..], p), f);
      }
    }
  }

  lemma MapCons<T, U>(x: T, s: seq<T>, f: T -> U)
    ensures Map([x] + s, f) == [f(x)] + Map(s, f)
  {
  }

  /** Mapping with `f` and then with a left inverse of `f` gives back the sequence. */
  lemma MapInverse<T, U>(s: seq<T>, f: T -> U, g: U -> T)
    requires forall x :: g(f(x)) == x
    ensures Map(Map(s, f), g) == s
  {
  }

  /** The mask keeps every copy of a selected element and no copy of any other. */
  lemma {:induction false} FilterCount<T>(s: seq<T>, p: T -> bool, x: T)
    ensures multiset(Filter(s, p))[x] == if p(x) then multiset(s)[x] else 0
    decreases |s|
  {
    if |s| > 0 {
      FilterCount(s[1..], p, x);
      assert s == [s[0]] + s[1..];
      assert multiset(s) == multiset{s[0]} + multiset(s[1..]);
      if p(s[0]) {
        assert multiset(Filter(s, p)) == multiset{s[0]} + multiset(Filter(s[1..], p));
      }
    }
  }

  /** Two masks that never both hold select, between them, the same elements as their
      disjunction, each as often. */
  lemma FilterDisjointUnion<T>(s: seq<T>, p: T -> bool, q: T -> bool, either: T -> bool)
    requires forall x :: either(x) == (p(x) || q(x))
    requires forall x :: !(p(x) && q(x))
    ensures multiset(Filter(s, p) + Filter(s, q)) == multiset(Filter(s, either))
    ensures |Filter(s, p) + Filter(s, q)| == |Filter(s, either)|
  {
    var both := Filter(s, p) + Filter(s, q);
    forall x ensures multiset(both)[x] == multiset(Filter(s, either))[x] {
      FilterCount(s, p, x);
      FilterCount(s, q, x);
      FilterCount(s, either, x);
    }
    assert multiset(both) == multiset(Filter(s, either));
    assert |multiset(both)| == |multiset(Filter(s, either))|;
  }

  /** The tail of a duplicate-free sequence is duplicate-free and does not hold its head. */
  lemma NoDupTail<T>(s: seq<T>)
    requires |s| > 0 && NoDup(s)
    ensures NoDup(s[1..]) && s[0] !in s[1..]
  {
    var rest := s[1..];
    forall i, j | 0 <= i < j < |rest| ensures rest[i] != rest[j] {
      assert rest[i] == s[i + 1] && rest[j] == s[j + 1];
    }
    forall k | 0 <= k < |rest| ensures rest[k] != s[0] {
      assert rest[k] == s[k + 1];
    }
  }

  /** Putting a new element in front of a duplicate-free sequence keeps it duplicate-free. */
  lemma NoDupCons<T>(x: T, rest: seq<T>)
    requires NoDup(rest) && x !in rest
    ensures NoDup([x] + rest)
  {
    var r := [x] + rest;
    forall i, j | 0 <= i < j < |r| ensures r[i] != r[j] {
      assert r[j] == rest[j - 1];
      if i > 0 {
        assert r[i] == rest[i - 1];
      }
    }
  }

  /** Applying a mask to a duplicate-free table gives a duplicate-free table. */
  lemma {:induction false} FilterNoDup<T>(s: seq<T>, p: T -> bool)
    requires NoDup(s)
    ensures NoDup(Filter(s, p))
    decreases |s|
  {
    if |s| > 0 {
      NoDupTail(s);
      FilterNoDup(s[1..], p);
      if p(s[0]) {
        NoDupCons(s[0], Filter(s[1..], p));
      }
    }
  }

  /** Concatenating two duplicate-free tables with no common row gives a duplicate-free table. */
  lemma DisjointAppendNoDup<T>(a: seq<T>, b: seq<T>)
    requires NoDup(a) && NoDup(b)
    requires forall x :: x in a ==> x !in b
    ensures NoDup(a + b)
  {
    var r := a + b;
    forall i, j | 0 <= i < j < |r| ensures r[i] != r[j] {
      if j < |a| {
        assert r[i] == a[i] && r[j] == a[j];
      } else if i >= |a| {
        assert r[i] == b[i - |a|] && r[j] == b[j - |a|];
      } else {
        assert r[i] == a[i] && r[j] == b[j - |a|];
        assert r[j] in b;
      }
    }
  }

  /** A duplicate-free sequence has as many positions as distinct elements. */
  lemma {:induction false} NoDupCardinality<T>(s: seq<T>)
    requires NoDup(s)
    ensures |Elems(s)| == |s|
    decreases |s|
  {
    if |s| > 0 {
      var rest := s[1..];
      NoDupTail(s);
      NoDupCardinality(rest);
      assert Elems(s) == {s[0]} + Elems(rest) by {
        assert s == [s[0]] + rest;
      }
    }
  }
}
