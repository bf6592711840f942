/** Facts about finite sequences that several of the models share. */
module Sequences {

  /** No element occurs twice. */
  ghost predicate NoDup<T>(s: seq<T>) {
    forall i, j :: 0 <= i < j < |s| ==> s[i] != s[j]
  }

  ghost function SetOf<T>(s: seq<T>): set<T> {
    set x | x in s
  }

  /** A duplicate-free sequence is as long as the set of its elements. */
  lemma {:induction false} NoDupLength<T>(s: seq<T>)
    requires NoDup(s)
    ensures |SetOf(s)| == |s|
  {
    if s == [] {
      assert SetOf(s) == {};
    } else {
      var n := |s| - 1;
      NoDupLength(s[..n]);
      assert s == s[..n] + [s[n]];
      assert SetOf(s) == SetOf(s[..n]) + {s[n]};
      assert s[n] !in SetOf(s[..n]);
    }
  }

  lemma SubsetSize<T>(a: set<T>, b: set<T>)
    requires a <= b
    ensures |a| <= |b|
  {
    assert b == a + (b - a);
  }

  /** Pigeonhole: a duplicate-free sequence drawn from b is no longer than b. */
  lemma NoDupBound<T>(s: seq<T>, b: set<T>)
    requires NoDup(s)
    requires forall x :: x in s ==> x in b
    ensures |s| <= |b|
  {
    NoDupLength(s);
    SubsetSize(SetOf(s), b);
  }

  /** A permutation keeps membership. */
  lemma PermutationMembers<T>(a: seq<T>, b: seq<T>)
    requires multiset(a) == multiset(b)
    ensures |a| == |b|
    ensures forall x :: x in a <==> x in b
  {
    assert |multiset(a)| == |multiset(b)|;
    forall x
      ensures x in a <==> x in b
    {
      assert x in a <==> x in multiset(a);
      assert x in b <==> x in multiset(b);
    }
  }

  /** A permutation keeps the absence of duplicates. */
  lemma PermutationNoDup<T>(a: seq<T>, b: seq<T>)
    requires multiset(a) == multiset(b)
    requires NoDup(a)
    ensures NoDup(b)
  {
    forall i, j | 0 <= i < j < |b|
      ensures b[i] != b[j]
    {
      if b[i] == b[j] {
        var x := b[i];
        assert b == b[..i] + [b[i]] + b[i+1..j] + [b[j]] + b[j+1..];
        assert multiset(b)[x] >= 2;
        NoDupCount(a, x);
        assert false;
      }
    }
  }

  lemma {:induction false} NoDupCount<T>(a: seq<T>, x: T)
    requires NoDup(a)
    ensures multiset(a)[x] <= 1
  {
    if a != [] {
      var n := |a| - 1;
      NoDupCount(a[..n], x);
      assert a == a[..n] + [a[n]];
      if a[n] == x {
        assert x !in a[..n];
        assert x !in multiset(a[..n]);
      }
    }
  }

  /** The sum of a sequence of numbers. */
  ghost function Sum(s: seq<real>): real {
    if s == [] then 0.0 else Sum(s[..|s|-1]) + s[|s|-1]
  }

  lemma SetOfPrefix<T>(s: seq<T>, i: nat)
    requires i < |s|
    ensures SetOf(s[..i+1]) == SetOf(s[..i]) + {s[i]}
  {
    assert s[..i+1] == s[..i] + [s[i]];
  }
}
