/** Cardinality facts about finite sets and duplicate-free sequences. */
module Finite {

  /** The numbers below `n`. */
  ghost function Range(n: nat): (s: set<nat>)
    ensures forall k :: k in s <==> 0 <= k < n
    ensures |s| == n
  {
    if n == 0 then {} else Range(n - 1) + {n - 1}
  }

  lemma SubsetSize<T>(a: set<T>, b: set<T>)
    requires a <= b
    ensures |a| <= |b|
    ensures |a| == |b| ==> a == b
  {
    assert b == a + (b - a);
  }

  ghost predicate Distinct<T>(s: seq<T>) {
    forall i, j :: 0 <= i < j < |s| ==> s[i] != s[j]
  }

  ghost function Elems<T>(s: seq<T>): set<T> {
    set x | x in s
  }

  /** A sequence without duplicates has as many elements as its set. */
  lemma {:induction false} DistinctSize<T>(s: seq<T>)
    requires Distinct(s)
    ensures |Elems(s)| == |s|
  {
    if s != [] {
      DistinctSize(s[1..]);
      assert Elems(s) == {s[0]} + Elems(s[1..]);
    }
  }

  /** Inserting a new element in the middle. */
  lemma InsertElems<T>(s: seq<T>, i: nat, x: T)
    requires i <= |s|
    ensures Elems(s[..i] + [x] + s[i..]) == Elems(s) + {x}
    ensures Distinct(s) && x !in s ==> Distinct(s[..i] + [x] + s[i..])
  {}

  /** Distinct numbers below `n`: at most `n` of them, and all of them if exactly `n`. */
  lemma DistinctBound(s: seq<nat>, n: nat)
    requires Distinct(s) && forall x :: x in s ==> x < n
    ensures |s| <= n
    ensures |s| == n ==> forall k :: 0 <= k < n ==> k in s
  {
    DistinctSize(s);
    SubsetSize(Elems(s), Range(n));
    if |s| == n {
      forall k | 0 <= k < n ensures k in s {
        assert k in Range(n) && k in Elems(s);
      }
    }
  }
}
