/** Carrington maps as numpy two-dimensional arrays: one row per longitude, one column per
    latitude, every row the same length. */
module Grids {
  import opened Kinematics

  type Grid = g: seq<seq<real>> | forall i :: 0 <= i < |g| ==> |g[i]| == |g[0]|

  /** The number of columns; an array without rows has no column to index. */
  function Cols(g: Grid): nat {
    if |g| == 0 then 0 else |g[0]|
  }

  /** The column slice g[:, j]. */
  function Column(g: Grid, j: nat): (c: seq<real>)
    requires j < Cols(g)
    ensures |c| == |g|
    ensures forall i :: 0 <= i < |g| ==> c[i] == g[i][j]
  {
    seq(|g|, i requires 0 <= i < |g| => g[i][j])
  }

  /** The column slice a[:, j] of a numpy array. */
  function ArrayColumn(a: array2<real>, j: nat): (c: seq<real>)
    reads a
    requires j < a.Length1
    ensures |c| == a.Length0
    ensures forall i :: 0 <= i < a.Length0 ==> c[i] == a[i, j]
  {
    seq(a.Length0, i requires 0 <= i < a.Length0 reads a => a[i, j])
  }

  predicate GridPositive(g: Grid) {
    forall i, j :: 0 <= i < |g| && 0 <= j < |g[i]| ==> g[i][j] > 0.0
  }

  /** Every column of a map of positive speeds is a profile of positive speeds, and so is every
      row. */
  lemma PositiveSlices(g: Grid, j: nat, i: nat)
    requires GridPositive(g) && j < Cols(g) && i < |g|
    ensures AllPositive(Column(g, j)) && AllPositive(g[i])
  {
  }
}
