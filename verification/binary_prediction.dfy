/**
 `get_student_binary_prediction`: the predicted values of a column are
 turned into labels with `np.where(values > 5, 1, 0)`. Values are floating
 point numbers; the model keeps their order and NaN, which no comparison
 accepts, and leaves out rounding.
 */
module BinaryPrediction {
  import opened Seqs

  datatype Float = Finite(x: real) | NaN

  const Threshold: real := 5.0

  /** `value > 5` in IEEE comparison: false for NaN. */
  predicate Above(v: Float)
  {
    v.Finite? && v.x > Threshold
  }

  function Label(v: Float): int
  {
    if Above(v) then 1 else 0
  }

  /** `np.where(values > 5, 1, 0)`: one label per value, 1 exactly for the
      values strictly above 5 and 0 for all others, NaN included. */
  function StudentBinaryPrediction(values: seq<Float>): (labels: seq<int>)
    ensures |labels| == |values|
    ensures forall k :: 0 <= k < |values| ==> (labels[k] == 1 <==> Above(values[k]))
    ensures forall k :: 0 <= k < |values| ==> (labels[k] == 0 <==> !Above(values[k]))
  {
    seq(|values|, k requires 0 <= k < |values| => Label(values[k]))
  }

  predicate IsOne(n: int)
  {
    n == 1
  }

  /** There are as many 1 labels as values above the threshold. */
  lemma {:induction false} OnesCount(values: seq<Float>)
    ensures |Filter(StudentBinaryPrediction(values), IsOne)| == |Filter(values, Above)|
  {
    if |values| > 0 {
      var labels := StudentBinaryPrediction(values);
      assert labels[1..] == StudentBinaryPrediction(values[1..]);
      OnesCount(values[1..]);
    }
  }

  /** The threshold is strict: 5 itself gives 0, and any larger finite
      value gives 1. */
  lemma ThresholdStrict(x: real)
    ensures StudentBinaryPrediction([Finite(Threshold)]) == [0]
    ensures x > Threshold ==> StudentBinaryPrediction([Finite(x)]) == [1]
  {
    assert StudentBinaryPrediction([Finite(Threshold)])[0] == 0;
    if x > Threshold {
      assert StudentBinaryPrediction([Finite(x)])[0] == 1;
    }
  }

  /** Labels are monotone in finite values: a larger value never gets the
      smaller label. */
  lemma LabelMonotone(values: seq<Float>, i: nat, j: nat)
    requires i < |values| && j < |values|
    requires values[i].Finite? && values[j].Finite? && values[i].x <= values[j].x
    ensures StudentBinaryPrediction(values)[i] <= StudentBinaryPrediction(values)[j]
  {
  }
}
