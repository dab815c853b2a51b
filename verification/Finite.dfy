/** Counting facts about finite sets. */
module Finite {

  ghost predicate InjectiveOn<T(!new), U(!new)>(f: T -> U, a: set<T>) {
    forall x, y :: x in a && y in a && f(x) == f(y) ==> x == y
  }

  ghost predicate MapsInto<T(!new), U(!new)>(f: T -> U, a: set<T>, b: set<U>) {
    forall x :: x in a ==> f(x) in b
  }

  /** An injection does not enlarge its domain. */
  lemma {:induction false} InjectionCard<T(!new), U(!new)>(a: set<T>, b: set<U>, f: T -> U)
    requires MapsInto(f, a, b) && InjectiveOn(f, a)
    ensures |a| <= |b|
    decreases |a|
  {
    if a != {} {
      var x :| x in a;
      InjectionCard(a - {x}, b - {f(x)}, f);
      assert |a - {x}| == |a| - 1 && |b - {f(x)}| == |b| - 1;
    }
  }

  lemma SubsetCard<T>(a: set<T>, b: set<T>)
    requires a <= b
    ensures |a| <= |b|
  {
    assert b == a + (b - a);
  }

  lemma {:induction false} SingletonCard<T>(a: set<T>, x: T)
    requires x in a && forall y :: y in a ==> y == x
    ensures |a| == 1
  {
    assert a == {x};
  }

  /** The members of a sequence without repetition are as many as its length. */
  lemma {:induction false} DistinctSeqCard<T>(s: seq<T>)
    requires forall i, j :: 0 <= i < j < |s| ==> s[i] != s[j]
    ensures |set x | x in s| == |s|
  {
    if s != [] {
      var t := s[..|s| - 1];
      var last := s[|s| - 1];
      DistinctSeqCard(t);
      assert (set x | x in s) == (set x | x in t) + {last};
    }
  }
}
