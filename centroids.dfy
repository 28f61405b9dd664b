/** The centroid that `compute_centroids` computes for one dirty cluster, as a
    specification over the assignment map and the data set. */
module Centroids {
  import opened Vectors

  /** The number of points that map sends to cluster c. */
  function Population(m: seq<int>, c: int): nat
  {
    if |m| == 0 then 0
    else Population(m[..|m| - 1], c) + (if m[|m| - 1] == c then 1 else 0)
  }

  /** The coordinate-wise sum of the points that map sends to cluster c, accumulated in
      point order from the zero vector. */
  function MemberSum(data: seq<Vector>, m: seq<int>, c: int, dim: nat): (v: Vector)
    requires |data| == |m| && Uniform(data, dim)
    ensures |v| == dim
  {
    if |m| == 0 then Zero(dim)
    else
      var prev := MemberSum(data[..|m| - 1], m[..|m| - 1], c, dim);
      if m[|m| - 1] == c then Add(prev, data[|m| - 1]) else prev
  }

  /** The new centroid of a dirty cluster: the member sum, divided by the population only
      when that exceeds 1. */
  function Recomputed(data: seq<Vector>, m: seq<int>, c: int, dim: nat): (v: Vector)
    requires |data| == |m| && Uniform(data, dim)
    ensures |v| == dim
  {
    var pop := Population(m, c);
    var sum := MemberSum(data, m, c, dim);
    if pop > 1 then Scale(sum, 1.0 / pop as real) else sum
  }

  /** A cluster has no members exactly when its population is 0, and then its member sum is
      the zero vector. */
  lemma {:induction false} EmptyCluster(data: seq<Vector>, m: seq<int>, c: int, dim: nat)
    requires |data| == |m| && Uniform(data, dim)
    ensures Population(m, c) == 0 <==> forall p :: 0 <= p < |m| ==> m[p] != c
    ensures Population(m, c) == 0 ==> MemberSum(data, m, c, dim) == Zero(dim)
  {
    if |m| > 0 {
      var n := |m| - 1;
      EmptyCluster(data[..n], m[..n], c, dim);
      assert forall p :: 0 <= p < n ==> m[..n][p] == m[p];
    }
  }

  /** A cluster whose only member is point q has population 1 and member sum equal to
      that point's coordinates. */
  lemma {:induction false} SingletonCluster(data: seq<Vector>, m: seq<int>, c: int, dim: nat, q: int)
    requires |data| == |m| && Uniform(data, dim)
    requires 0 <= q < |m| && m[q] == c
    requires forall p :: 0 <= p < |m| && p != q ==> m[p] != c
    ensures Population(m, c) == 1
    ensures MemberSum(data, m, c, dim) == data[q]
  {
    var n := |m| - 1;
    assert forall p :: 0 <= p < n ==> m[..n][p] == m[p];
    if q == n {
      EmptyCluster(data[..n], m[..n], c, dim);
      assert Add(Zero(dim), data[n]) == data[n];
    } else {
      SingletonCluster(data[..n], m[..n], c, dim, q);
    }
  }

  /** Every coordinate of the member sum is the sum of that coordinate over the members. */
  function CoordSum(data: seq<Vector>, m: seq<int>, c: int, k: nat): real
    requires |data| == |m|
    requires forall p :: 0 <= p < |data| ==> k < |data[p]|
  {
    if |m| == 0 then 0.0
    else CoordSum(data[..|m| - 1], m[..|m| - 1], c, k) + (if m[|m| - 1] == c then data[|m| - 1][k] else 0.0)
  }

  lemma {:induction false} MemberSumAt(data: seq<Vector>, m: seq<int>, c: int, dim: nat, k: nat)
    requires |data| == |m| && Uniform(data, dim) && k < dim
    ensures MemberSum(data, m, c, dim)[k] == CoordSum(data, m, c, k)
  {
    if |m| > 0 {
      MemberSumAt(data[..|m| - 1], m[..|m| - 1], c, dim, k);
    }
  }

  /** A dirty cluster without members gets the zero vector. */
  lemma RecomputedEmpty(data: seq<Vector>, m: seq<int>, c: int, dim: nat)
    requires |data| == |m| && Uniform(data, dim)
    requires forall p :: 0 <= p < |m| ==> m[p] != c
    ensures Recomputed(data, m, c, dim) == Zero(dim)
  {
    EmptyCluster(data, m, c, dim);
  }

  /** A dirty cluster whose only member is point q gets exactly that point's coordinates. */
  lemma RecomputedSingleton(data: seq<Vector>, m: seq<int>, c: int, dim: nat, q: int)
    requires |data| == |m| && Uniform(data, dim)
    requires 0 <= q < |m| && m[q] == c
    requires forall p :: 0 <= p < |m| && p != q ==> m[p] != c
    ensures Recomputed(data, m, c, dim) == data[q]
  {
    SingletonCluster(data, m, c, dim, q);
  }

  /** A dirty cluster with more than one member gets the coordinate-wise mean of its
      members. */
  lemma RecomputedMean(data: seq<Vector>, m: seq<int>, c: int, dim: nat)
    requires |data| == |m| && Uniform(data, dim)
    ensures Population(m, c) > 1 ==>
      forall k :: 0 <= k < dim ==>
        Recomputed(data, m, c, dim)[k] == CoordSum(data, m, c, k) / Population(m, c) as real
  {
    var pop := Population(m, c);
    if pop > 1 {
      forall k | 0 <= k < dim
        ensures Recomputed(data, m, c, dim)[k] == CoordSum(data, m, c, k) / pop as real
      {
        MemberSumAt(data, m, c, dim, k);
        var x := MemberSum(data, m, c, dim)[k];
        assert x * (1.0 / pop as real) == x / pop as real;
      }
    }
  }
}
