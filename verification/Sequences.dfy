/** Sequences without repetition, and parts of sequences. */
module Sequences {
  /** The elements satisfying `p`, in their order. */
  function Keep<T(!new)>(s: seq<T>, p: T -> bool): (kept: seq<T>)
    ensures forall x :: x in kept <==> x in s && p(x)
  {
    if s == [] then []
    else
      var n := |s| - 1;
      assert s == s[..n] + [s[n]];
      Keep(s[..n], p) + if p(s[n]) then [s[n]] else []
  }

  // The numbers below n that satisfy `p`.
  function Below(n: nat, p: nat -> bool): set<nat> {
    set i: nat | i < n && p(i)
  }

  lemma BelowNext(n: nat, p: nat -> bool)
    ensures |Below(n + 1, p)| == |Below(n, p)| + if p(n) then 1 else 0
  {
    if p(n) {
      assert Below(n + 1, p) == Below(n, p) + {n};
    } else {
      assert Below(n + 1, p) == Below(n, p);
    }
  }

  lemma {:induction false} KeepAll<T(!new)>(s: seq<T>, p: T -> bool)
    requires forall x :: x in s ==> p(x)
    ensures Keep(s, p) == s
  {
    if s != [] {
      var n := |s| - 1;
      assert s == s[..n] + [s[n]] && s[n] in s;
      forall x | x in s[..n]
        ensures p(x)
      {
        assert x in s;
      }
      KeepAll(s[..n], p);
    }
  }

  lemma {:induction false} KeepCounts<T(!new)>(s: seq<T>, p: T -> bool, x: T)
    ensures multiset(Keep(s, p))[x] == if p(x) then multiset(s)[x] else 0
  {
    if s != [] {
      var n := |s| - 1;
      KeepCounts(s[..n], p, x);
      assert s == s[..n] + [s[n]];
    }
  }

  /** How many elements satisfy `p` does not depend on their order. */
  lemma KeepPermutes<T(!new)>(a: seq<T>, b: seq<T>, p: T -> bool)
    requires multiset(a) == multiset(b)
    ensures |Keep(a, p)| == |Keep(b, p)|
  {
    forall x
      ensures multiset(Keep(a, p))[x] == multiset(Keep(b, p))[x]
    {
      KeepCounts(a, p, x);
      KeepCounts(b, p, x);
    }
    assert multiset(Keep(a, p)) == multiset(Keep(b, p));
    assert |multiset(Keep(a, p))| == |Keep(a, p)| && |multiset(Keep(b, p))| == |Keep(b, p)|;
  }

  lemma {:induction false} KeepConcat<T(!new)>(a: seq<T>, b: seq<T>, p: T -> bool)
    ensures Keep(a + b, p) == Keep(a, p) + Keep(b, p)
  {
    if b == [] {
      assert a + b == a;
    } else {
      var n := |b| - 1;
      KeepConcat(a, b[..n], p);
      assert (a + b)[..|a + b| - 1] == a + b[..n];
    }
  }

  lemma SameElements<T>(a: seq<T>, b: seq<T>, x: T)
    requires multiset(a) == multiset(b)
    ensures x in a <==> x in b
  {
    assert x in multiset(a) <==> x in multiset(b);
  }

  predicate Distinct<T(==)>(s: seq<T>) {
    forall i, j :: 0 <= i < j < |s| ==> s[i] != s[j]
  }

  lemma {:induction false} DistinctCounts<T>(s: seq<T>, x: T)
    requires Distinct(s)
    ensures multiset(s)[x] <= 1
  {
    if s != [] {
      DistinctCounts(s[1..], x);
      assert s == [s[0]] + s[1..];
      assert x == s[0] ==> x !in s[1..];
    }
  }

  lemma RepeatedCountsTwice<T>(s: seq<T>, i: nat, j: nat)
    requires i < j < |s|
    ensures s[i] == s[j] ==> multiset(s)[s[i]] >= 2
  {
    assert s == s[..j] + [s[j]] + s[j + 1..];
    assert s[i] in s[..j];
  }

  /** What a sequence without repetition contains, it contains without repetition. */
  lemma PartIsDistinct<T>(whole: seq<T>, part: seq<T>)
    requires Distinct(whole) && multiset(part) <= multiset(whole)
    ensures Distinct(part)
  {
    forall i, j | 0 <= i < j < |part|
      ensures part[i] != part[j]
    {
      DistinctCounts(whole, part[i]);
      RepeatedCountsTwice(part, i, j);
    }
  }
}
