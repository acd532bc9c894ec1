/** `compute_rmsd`: the aligner's residual divided by the atom count, with no
    square root, after refusing point sets of different shapes. The shape
    check and the error kinds are shared with `compute_rssd` (module RssdBatch). */
module RmsdMetric {
  import opened Types

  /** Why a metric could not be computed. */
  datatype MetricError =
    | ShapeMismatch(nativeShape: seq<nat>, predictedShape: seq<nat>)
    | AlignFailed
    | NoPoints

  /** The metric value and the aligner's rotation, as `(rotation, value)`. */
  datatype Scored = Scored(rotation: Rotation, value: real)

  /** `np.array(atoms).shape`: `(0,)` for no atoms, `(n, 3)` otherwise. */
  function ShapeOf(points: seq<Point>): (shape: seq<nat>)
    ensures |shape| >= 1 && shape[0] == |points|
    ensures |shape| == 1 <==> points == []
    ensures points != [] ==> shape == [|points|, 3]
  {
    if points == [] then [0] else [|points|, 3]
  }

  /** Two extracted point sets have the same shape exactly when they have
      the same number of points. */
  lemma {:induction false} SameShapeIffSameCount(a: seq<Point>, b: seq<Point>)
    ensures ShapeOf(a) == ShapeOf(b) <==> |a| == |b|
  {
    if |a| == |b| && a != [] {
      assert b != [];
    }
  }

  /** `compute_rmsd(true_atoms, predicted_atoms)`: a shape guard that reports
      both shapes before the aligner is consulted, then
      the residual divided by the number of native points (no square root).
      scipy refuses the `(0,)` arrays of an empty extraction, so at zero points
      there is no score (`NoPoints`), whatever the aligner would return. */
  function ComputeRmsd(native: seq<Point>, predicted: seq<Point>, align: Aligner): (r: Result<Scored, MetricError>)
    ensures |native| != |predicted| <==> r == Err(ShapeMismatch(ShapeOf(native), ShapeOf(predicted)))
    ensures r.Ok? <==> |native| == |predicted| && native != [] && align(native, predicted).Some?
    ensures r.Ok? ==>
      r.value.rotation == align(native, predicted).value.rotation &&
      r.value.value * (|native| as real) == align(native, predicted).value.residual
  {
    SameShapeIffSameCount(native, predicted);
    if ShapeOf(native) != ShapeOf(predicted) then Err(ShapeMismatch(ShapeOf(native), ShapeOf(predicted)))
    else if native == [] then Err(NoPoints)
    else match align(native, predicted)
      case None => Err(AlignFailed)
      case Some(al) => Ok(Scored(al.rotation, al.residual / (|native| as real)))
  }
}
