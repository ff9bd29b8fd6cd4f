/** Sequences without repetition and the counting arguments made with them.

    A sequence of distinct elements that all lie in a finite set is at most as long as that set, and as long only if it
    holds all of it.  The dirty-state table never runs full by this argument, and a chain of parents that is longer than
    the number of nodes comes past some node twice. */
module Counting {
  predicate Distinct<T(==)>(s: seq<T>) {
    forall i, j :: 0 <= i < j < |s| ==> s[i] != s[j]
  }

  lemma DistinctConcat<T>(a: seq<T>, b: seq<T>)
    requires Distinct(a) && Distinct(b) && forall x :: x in a ==> x !in b
    ensures Distinct(a + b)
  {
    var s := a + b;
    forall i, j | 0 <= i < j < |s| ensures s[i] != s[j] {
      if i < |a| <= j {
        assert a[i] in a && b[j - |a|] in b;
      }
    }
  }

  lemma {:induction false} SetOfDistinct<T>(s: seq<T>)
    requires Distinct(s)
    ensures |set x | x in s| == |s|
  {
    if s != [] {
      SetOfDistinct(s[1..]);
      assert (set x | x in s) == {s[0]} + (set x | x in s[1..]);
    }
  }

  lemma {:induction false} SubsetSize<T>(a: set<T>, b: set<T>)
    requires a <= b
    ensures |a| <= |b|
  {
    if a != {} {
      var x :| x in a;
      SubsetSize(a - {x}, b - {x});
    }
  }

  /** Distinct entries drawn from a set are no more than its elements. */
  lemma DistinctWithin<T>(s: seq<T>, all: set<T>)
    requires Distinct(s) && forall x :: x in s ==> x in all
    ensures |s| <= |all|
  {
    SetOfDistinct(s);
    SubsetSize((set x | x in s), all);
  }

  function Below(n: nat): (s: set<int>)
    ensures |s| == n && forall x :: x in s <==> 0 <= x < n
  {
    if n == 0 then {} else Below(n - 1) + {n - 1}
  }

  /** More entries than values: two entries agree. */
  lemma Pigeonhole(s: seq<int>, n: nat)
    requires |s| > n && forall k :: 0 <= k < |s| ==> 0 <= s[k] < n
    ensures !Distinct(s)
  {
    if Distinct(s) {
      DistinctWithin(s, Below(n));
    }
  }

  /** Distinct positions that cover 0 .. n - 1 and nothing else are exactly n many. */
  lemma DistinctCover(s: seq<nat>, n: nat)
    requires Distinct(s) && forall x :: x in s <==> 0 <= x < n
    ensures |s| == n
  {
    SetOfDistinct(s);
    var ints: set<int> := set x | x in s;
    assert ints == Below(n);
    var nats: set<nat> := set x | x in s;
    assert nats == ints;
  }

  lemma {:induction false} DistinctOnce<T>(s: seq<T>, x: T)
    requires Distinct(s) && x in s
    ensures multiset(s)[x] == 1
  {
    assert s == [s[0]] + s[1..];
    if x in s[1..] {
      DistinctOnce(s[1..], x);
    }
  }
}
