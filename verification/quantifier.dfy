/**
 Structure volumes from a predicted label volume (`get_predicted_volumes`):
 label 1 is the anterior hippocampus, label 2 the posterior one, and every
 other label (0 for background) is not counted.
 */
module Quantifier {
  import opened Geometry

  datatype Volumes = Volumes(anterior: nat, posterior: nat, total: nat)

  const Anterior: int := 1
  const Posterior: int := 2

  /** The voxels of a volume, in index order (row, column, slice). */
  function Voxels(v: Volume): seq<int>
  {
    Flatten3(v.cells)
  }

  function Flatten2(rows: seq<seq<int>>): seq<int>
  {
    if |rows| == 0 then [] else rows[0] + Flatten2(rows[1..])
  }

  function Flatten3(planes: seq<seq<seq<int>>>): seq<int>
  {
    if |planes| == 0 then [] else Flatten2(planes[0]) + Flatten3(planes[1..])
  }

  lemma {:induction false} Flatten2Length(rows: seq<seq<int>>, n: nat)
    requires forall j :: 0 <= j < |rows| ==> |rows[j]| == n
    ensures |Flatten2(rows)| == |rows| * n
  {
    if |rows| > 0 {
      Flatten2Length(rows[1..], n);
    }
  }

  lemma {:induction false} Flatten3Length(planes: seq<seq<seq<int>>>, m: nat, n: nat)
    requires forall i :: 0 <= i < |planes| ==> |planes[i]| == m
    requires forall i, j :: 0 <= i < |planes| && 0 <= j < |planes[i]| ==> |planes[i][j]| == n
    ensures |Flatten3(planes)| == |planes| * (m * n)
  {
    if |planes| > 0 {
      Flatten2Length(planes[0], n);
      Flatten3Length(planes[1..], m, n);
    }
  }

  /** A volume of shape (d0, d1, d2) has d0 * d1 * d2 voxels. */
  lemma VoxelCount(v: Volume)
    ensures |Voxels(v)| == v.d0 * (v.d1 * v.d2)
  {
    Flatten3Length(v.cells, v.d1, v.d2);
  }

  /** `np.sum(s == lab)`: the number of entries equal to the label `lab`. */
  function Count(s: seq<int>, lab: int): (n: nat)
    ensures n == multiset(s)[lab]
    ensures n <= |s|
  {
    if |s| == 0 then 0
    else
      assert s == [s[0]] + s[1..];
      (if s[0] == lab then 1 else 0) + Count(s[1..], lab)
  }

  /** The number of entries carrying neither structure label. */
  function CountOther(s: seq<int>): (n: nat)
    ensures n == |s| - multiset(s)[Anterior] - multiset(s)[Posterior]
  {
    if |s| == 0 then 0
    else
      assert s == [s[0]] + s[1..];
      (if s[0] != Anterior && s[0] != Posterior then 1 else 0) + CountOther(s[1..])
  }

  /** `get_predicted_volumes`: exact voxel tallies of the two labels and
      their sum. */
  function PredictedVolumes(pred: Volume): (r: Volumes)
    ensures r.anterior == multiset(Voxels(pred))[Anterior]
    ensures r.posterior == multiset(Voxels(pred))[Posterior]
    ensures r.total == r.anterior + r.posterior
    ensures r.total <= pred.d0 * (pred.d1 * pred.d2)
  {
    var voxels := Voxels(pred);
    VoxelCount(pred);
    assert CountOther(voxels) >= 0;
    var ant := Count(voxels, Anterior);
    var post := Count(voxels, Posterior);
    Volumes(ant, post, ant + post)
  }

  /** Labels other than 1 and 2 are ignored: the total plus the voxels of
      any other label is the whole volume. */
  lemma TotalPlusOthers(pred: Volume)
    ensures PredictedVolumes(pred).total + CountOther(Voxels(pred)) == pred.d0 * (pred.d1 * pred.d2)
  {
    VoxelCount(pred);
  }
}
