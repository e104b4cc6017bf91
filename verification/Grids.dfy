/** Images: rectangular grids of numbers, and the two-dimensional arrays that hold them.

    The source stores an image row by row in one buffer and writes `[i*x_size+j]` for `[i, j]`. */
module Grids {

  type Grid = seq<seq<int>>

  ghost predicate Rect(g: Grid, ySize: nat, xSize: nat) {
    |g| == ySize && forall i :: 0 <= i < |g| ==> |g[i]| == xSize
  }

  function Put(g: Grid, i: int, j: int, v: int): Grid
    requires 0 <= i < |g| && 0 <= j < |g[i]|
  {
    g[i := g[i][j := v]]
  }

  // The contents of an array
  ghost function Snap(a: array2<int>): (g: Grid)
    reads a
    ensures Rect(g, a.Length0, a.Length1)
    ensures forall i, j :: 0 <= i < a.Length0 && 0 <= j < a.Length1 ==> g[i][j] == a[i, j]
  {
    seq(a.Length0, i requires 0 <= i < a.Length0 reads a =>
      seq(a.Length1, j requires 0 <= j < a.Length1 reads a => a[i, j]))
  }

  lemma SnapPut(g: Grid, p: Grid, ySize: nat, xSize: nat, i: int, j: int, v: int)
    requires Rect(g, ySize, xSize) && Rect(p, ySize, xSize) && 0 <= i < ySize && 0 <= j < xSize
    requires forall h, k :: 0 <= h < ySize && 0 <= k < xSize ==> p[h][k] == if h == i && k == j then v else g[h][k]
    ensures p == Put(g, i, j, v)
  {
    var q := Put(g, i, j, v);
    forall h | 0 <= h < ySize
      ensures p[h] == q[h]
    {
      assert forall k :: 0 <= k < xSize ==> p[h][k] == q[h][k];
    }
  }
}
