/** Points and centroids of the clusterer: rows of `dimension` real coordinates, and the
    coordinate-wise operations `compute_centroids` applies to them. */
module Vectors {

  type Vector = seq<real>

  function Zero(dim: nat): Vector
  {
    seq(dim, _ => 0.0)
  }

  function Add(u: Vector, v: Vector): Vector
    requires |u| == |v|
  {
    seq(|u|, k requires 0 <= k < |u| => u[k] + v[k])
  }

  /** Each coordinate multiplied by f, as `centroids[i][k] *= 1.0/population` does. */
  function Scale(u: Vector, f: real): Vector
  {
    seq(|u|, k requires 0 <= k < |u| => u[k] * f)
  }

  /** Every point of the data set has dim coordinates. */
  ghost predicate Uniform(data: seq<Vector>, dim: nat)
  {
    forall p :: 0 <= p < |data| ==> |data[p]| == dim
  }
}
