/** Reordering a sequence. */
module Permutations {

  predicate IsPermutation(p: seq<nat>, n: nat) {
    && |p| == n
    && (forall i :: 0 <= i < n ==> p[i] < n)
    && (forall i, j :: 0 <= i < j < n ==> p[i] != p[j])
  }

  function Reorder<T>(xs: seq<T>, p: seq<nat>): (ys: seq<T>)
    requires forall i :: 0 <= i < |p| ==> p[i] < |xs|
    ensures |ys| == |p|
    ensures forall i :: 0 <= i < |p| ==> ys[i] == xs[p[i]]
  {
    seq(|p|, i requires 0 <= i < |p| => xs[p[i]])
  }

  function UpTo(n: nat): (s: set<nat>)
    ensures |s| == n
    ensures forall i: nat :: i in s <==> i < n
  {
    if n == 0 then {} else UpTo(n - 1) + {n - 1}
  }

  function Image(p: seq<nat>): (s: set<nat>)
    ensures forall x :: x in s <==> x in p
  {
    set x | x in p
  }

  lemma {:induction false} ImageSize(p: seq<nat>)
    requires forall i, j :: 0 <= i < j < |p| ==> p[i] != p[j]
    ensures |Image(p)| == |p|
  {
    if p != [] {
      var q, x := p[..|p| - 1], p[|p| - 1];
      ImageSize(q);
      assert p == q + [x];
      assert Image(p) == Image(q) + {x};
    }
  }

  lemma SubsetOfSameSize(a: set<nat>, b: set<nat>)
    requires a <= b && |a| == |b|
    ensures a == b
  {
    assert b == a + (b - a);
    assert |b - a| == 0;
  }

  /** An injection of `0..n` into itself hits every index. */
  lemma Preimage(p: seq<nat>, n: nat, i: nat) returns (k: nat)
    requires IsPermutation(p, n) && i < n
    ensures k < n && p[k] == i
  {
    ImageSize(p);
    SubsetOfSameSize(Image(p), UpTo(n));
    assert i in Image(p);
    k :| 0 <= k < n && p[k] == i;
  }
}
