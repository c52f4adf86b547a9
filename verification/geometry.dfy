/**
 Pixel grids and voxel volumes as numpy arrays of integers, and the array
 operations the loader and the report apply to them: `np.flip` over all
 axes, the transpose `.T`, `np.stack(planes, 2)` and the slice `v[:, :, k]`.
 */
module Geometry {
  import opened Seqs

  /** A two-dimensional array: `px[i][j]` is row `i`, column `j`. */
  datatype Grid = Grid(rows: nat, cols: nat, px: seq<seq<int>>)
  {
    predicate Rectangular()
    {
      |px| == rows && forall i :: 0 <= i < |px| ==> |px[i]| == cols
    }
  }

  /** A well-formed two-dimensional array of shape (rows, cols). */
  type Plane = g: Grid | g.Rectangular() witness Grid(0, 0, [])

  /** A three-dimensional array: `cells[i][j][k]` has shape (d0, d1, d2). */
  datatype Grid3 = Grid3(d0: nat, d1: nat, d2: nat, cells: seq<seq<seq<int>>>)
  {
    predicate Boxed()
    {
      && |cells| == d0
      && (forall i :: 0 <= i < |cells| ==> |cells[i]| == d1)
      && (forall i, j :: 0 <= i < |cells| && 0 <= j < |cells[i]| ==> |cells[i][j]| == d2)
    }
  }

  /** A well-formed three-dimensional array of shape (d0, d1, d2). */
  type Volume = v: Grid3 | v.Boxed() witness Grid3(0, 0, 0, [])

  /** `np.flip(a)` with no axis argument: both axes are reversed. */
  function FlipAll(p: Plane): (r: Plane)
    ensures r.rows == p.rows && r.cols == p.cols
    ensures forall i, j :: 0 <= i < p.rows && 0 <= j < p.cols ==>
      r.px[i][j] == p.px[p.rows - 1 - i][p.cols - 1 - j]
  {
    var mirrored := seq(p.rows, i requires 0 <= i < p.rows => Reverse(p.px[i]));
    Grid(p.rows, p.cols, Reverse(mirrored))
  }

  /** `a.T` on a two-dimensional array. */
  function Transpose(p: Plane): (r: Plane)
    ensures r.rows == p.cols && r.cols == p.rows
    ensures forall i, j :: 0 <= i < r.rows && 0 <= j < r.cols ==> r.px[i][j] == p.px[j][i]
  {
    Grid(p.cols, p.rows, seq(p.cols, j requires 0 <= j < p.cols =>
      seq(p.rows, i requires 0 <= i < p.rows => p.px[i][j])))
  }

  /** The orientation the loader gives every slice, `np.flip(a).T`: an
      (H, W) grid becomes a (W, H) grid whose cell (i, j) is the input's
      cell (H - 1 - j, W - 1 - i). */
  function Orient(p: Plane): (r: Plane)
    ensures r.rows == p.cols && r.cols == p.rows
    ensures forall i, j :: 0 <= i < r.rows && 0 <= j < r.cols ==>
      r.px[i][j] == p.px[p.rows - 1 - j][p.cols - 1 - i]
  {
    Transpose(FlipAll(p))
  }

  /** Two planes are equal when their shapes and cells agree. */
  lemma PlaneExt(a: Plane, b: Plane)
    requires a.rows == b.rows && a.cols == b.cols
    requires forall i, j :: 0 <= i < a.rows && 0 <= j < a.cols ==> a.px[i][j] == b.px[i][j]
    ensures a == b
  {
    forall i | 0 <= i < a.rows
      ensures a.px[i] == b.px[i]
    {
    }
  }

  /** Applying the orientation twice gives back the original grid, so the
      report, which applies `np.flip(...).T` to a loaded slice once more,
      shows the slice exactly as it was stored. */
  lemma OrientInvolution(p: Plane)
    ensures Orient(Orient(p)) == p
  {
    PlaneExt(Orient(Orient(p)), p);
  }

  /** All planes share one shape. */
  predicate SameShape(planes: seq<Plane>)
  {
    forall k :: 0 <= k < |planes| ==>
      planes[k].rows == planes[0].rows && planes[k].cols == planes[0].cols
  }

  /** `np.stack(planes, 2)`: the planes become the third axis. */
  function Stack(planes: seq<Plane>): (v: Volume)
    requires |planes| > 0 && SameShape(planes)
    ensures v.d0 == planes[0].rows && v.d1 == planes[0].cols && v.d2 == |planes|
    ensures forall i, j, k :: 0 <= i < v.d0 && 0 <= j < v.d1 && 0 <= k < v.d2 ==>
      v.cells[i][j][k] == planes[k].px[i][j]
  {
    var h := planes[0].rows;
    var w := planes[0].cols;
    Grid3(h, w, |planes|,
      seq(h, i requires 0 <= i < h =>
        seq(w, j requires 0 <= j < w =>
          seq(|planes|, k requires 0 <= k < |planes| => planes[k].px[i][j]))))
  }

  /** `v[:, :, k]`: the plane at position `k` of the third axis. */
  function SliceAt(v: Volume, k: nat): (p: Plane)
    requires k < v.d2
    ensures p.rows == v.d0 && p.cols == v.d1
    ensures forall i, j :: 0 <= i < p.rows && 0 <= j < p.cols ==> p.px[i][j] == v.cells[i][j][k]
  {
    Grid(v.d0, v.d1, seq(v.d0, i requires 0 <= i < v.d0 =>
      seq(v.d1, j requires 0 <= j < v.d1 => v.cells[i][j][k])))
  }

  /** Slicing a stacked volume at position `k` returns the `k`-th plane. */
  lemma SliceOfStack(planes: seq<Plane>, k: nat)
    requires |planes| > 0 && SameShape(planes) && k < |planes|
    ensures SliceAt(Stack(planes), k) == planes[k]
  {
    PlaneExt(SliceAt(Stack(planes), k), planes[k]);
  }
}
