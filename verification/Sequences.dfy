// Counting and rearranging sequences, shared by the sort, the index and the ranking.
module Sequences {

  // The numbers 0..n-1.
  function Iota(n: nat): (r: seq<nat>)
    ensures |r| == n && forall i :: 0 <= i < n ==> r[i] == i
  {
    seq(n, i => i)
  }

  predicate Distinct<T(==)>(s: seq<T>) {
    forall i, j :: 0 <= i < j < |s| ==> s[i] != s[j]
  }

  // A rearrangement of 0..n-1.
  predicate Permutation(p: seq<nat>) {
    Distinct(p) && forall i :: 0 <= i < |p| ==> p[i] < |p|
  }

  ghost function Below(n: nat): (r: set<nat>)
    ensures |r| == n && forall i: nat :: i in r <==> i < n
  {
    if n == 0 then {} else Below(n - 1) + {n - 1}
  }

  ghost function Elements(p: seq<nat>, n: nat): set<nat>
    requires n <= |p|
  {
    if n == 0 then {} else Elements(p, n - 1) + {p[n - 1]}
  }

  lemma {:induction false} ElementsAre(p: seq<nat>, n: nat, x: nat)
    requires n <= |p|
    ensures x in Elements(p, n) <==> x in p[..n]
  {
    if n > 0 {
      ElementsAre(p, n - 1, x);
      assert p[..n] == p[..n - 1] + [p[n - 1]];
    }
  }

  lemma {:induction false} DistinctSize(p: seq<nat>, n: nat)
    requires n <= |p| && Distinct(p)
    ensures |Elements(p, n)| == n
  {
    if n > 0 {
      DistinctSize(p, n - 1);
      ElementsAre(p, n - 1, p[n - 1]);
    }
  }

  lemma {:induction false} SubsetIsAll<T>(a: set<T>, b: set<T>)
    requires a <= b && |a| == |b|
    ensures a == b
  {
    if a != {} {
      var x :| x in a;
      SubsetIsAll(a - {x}, b - {x});
    }
  }

  // A permutation reaches every place.
  lemma PermutationIsOnto(p: seq<nat>, k: nat)
    requires Permutation(p) && k < |p|
    ensures exists i :: 0 <= i < |p| && p[i] == k
  {
    DistinctSize(p, |p|);
    assert p[..|p|] == p;
    forall x | x in Elements(p, |p|) ensures x in Below(|p|) { ElementsAre(p, |p|, x); }
    SubsetIsAll(Elements(p, |p|), Below(|p|));
    ElementsAre(p, |p|, k);
  }

  ghost function PlaceOf(p: seq<nat>, k: nat): (i: nat)
    requires Permutation(p) && k < |p|
    ensures i < |p| && p[i] == k
  {
    PermutationIsOnto(p, k);
    var i :| 0 <= i < |p| && p[i] == k;
    i
  }

  ghost function Inverse(p: seq<nat>): (q: seq<nat>)
    requires Permutation(p)
    ensures |q| == |p| && Permutation(q)
    ensures forall k :: 0 <= k < |p| ==> q[k] < |p| && p[q[k]] == k
    ensures forall i :: 0 <= i < |p| ==> p[i] < |p| && q[p[i]] == i
  {
    seq(|p|, k requires 0 <= k < |p| => PlaceOf(p, k))
  }
}
