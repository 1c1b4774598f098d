/**
 * The shape's transformation matrix. Its arithmetic belongs to PMatrix2D
 * and PMatrix3D, which are not part of this model: a matrix is represented
 * by its kind and by the operations applied to it since it was last
 * reset, which determine its entries.
 */
module Transforms {

  /** One call that composes onto the matrix, with its arguments. */
  datatype Transform =
    | Translate2(x: real, y: real)
    | Translate3(x: real, y: real, z: real)
    | Rotate(angle: real)
    | RotateAxis(angle: real, v0: real, v1: real, v2: real)
    | ScaleUniform(s: real)
    | Scale2(x: real, y: real)
    | Scale3(x: real, y: real, z: real)
    | Reset
    | Apply2(entries: seq<real>)     // the six entries of applyMatrix(n00 .. n12)
    | Apply3(entries: seq<real>)     // the sixteen entries of applyMatrix(n00 .. n33)

  /** `matrix`: null, a PMatrix2D or a PMatrix3D. */
  datatype Matrix =
    | NoMatrix
    | Matrix2D(ops: seq<Transform>)
    | Matrix3D(ops: seq<Transform>)

  /** The number of dimensions each call asks checkMatrix for. */
  function Dims(t: Transform): (d: nat)
    ensures d == 2 || d == 3
  {
    match t
    case Translate2(_, _) => 2
    case Rotate(_) => 2
    case ScaleUniform(_) => 2
    case Scale2(_, _) => 2
    case Reset => 2
    case Apply2(_) => 2
    case _ => 3
  }

  /** Applied operations since the last reset (none when there is no matrix). */
  function Ops(m: Matrix): seq<Transform> {
    match m
    case NoMatrix => []
    case Matrix2D(ops) => ops
    case Matrix3D(ops) => ops
  }

  /**
   * checkMatrix(dimensions): a missing matrix becomes a fresh 2D one when
   * two dimensions are asked for and a fresh 3D one otherwise; a 2D matrix
   * is converted to 3D, keeping its value, when three are asked for.
   */
  function CheckMatrix(m: Matrix, dimensions: int): (r: Matrix)
    ensures r != NoMatrix
    ensures Ops(r) == Ops(m)
    ensures m.NoMatrix? ==> (r.Matrix2D? <==> dimensions == 2)
    ensures m.Matrix3D? ==> r == m
    ensures m.Matrix2D? ==> (r.Matrix3D? <==> dimensions == 3)
  {
    match m
    case NoMatrix => if dimensions == 2 then Matrix2D([]) else Matrix3D([])
    case Matrix2D(ops) => if dimensions == 3 then Matrix3D(ops) else m
    case Matrix3D(_) => m
  }

  function WithOps(m: Matrix, ops: seq<Transform>): Matrix
    requires m != NoMatrix
  {
    if m.Matrix2D? then Matrix2D(ops) else Matrix3D(ops)
  }

  /** A transform call: checkMatrix, then compose the operation (reset() empties it). */
  function Transformed(m: Matrix, t: Transform): (r: Matrix)
    ensures r != NoMatrix
    ensures Ops(r) == if t == Reset then [] else Ops(m) + [t]
  {
    var c := CheckMatrix(m, Dims(t));
    WithOps(c, if t == Reset then [] else Ops(c) + [t])
  }

  /** A 3D matrix is never downgraded, and a call asking for 3D always leaves one. */
  lemma KindOrder(m: Matrix, t: Transform)
    ensures m.Matrix3D? ==> Transformed(m, t).Matrix3D?
    ensures Dims(t) == 3 ==> Transformed(m, t).Matrix3D?
    ensures Transformed(m, t).Matrix2D? <==> Dims(t) == 2 && !m.Matrix3D?
  {
  }

  /** Applying several operations in turn keeps all of them, in order, after the last reset. */
  function AfterAll(m: Matrix, ts: seq<Transform>): Matrix
    decreases |ts|
  {
    if ts == [] then m else AfterAll(Transformed(m, ts[0]), ts[1..])
  }

  function SinceReset(ops: seq<Transform>, ts: seq<Transform>): seq<Transform>
    decreases |ts|
  {
    if ts == [] then ops
    else SinceReset(if ts[0] == Reset then [] else ops + [ts[0]], ts[1..])
  }

  lemma {:induction false} AfterAllOps(m: Matrix, ts: seq<Transform>)
    ensures Ops(AfterAll(m, ts)) == SinceReset(Ops(m), ts)
    ensures ts != [] ==> AfterAll(m, ts) != NoMatrix
    decreases |ts|
  {
    if ts != [] {
      AfterAllOps(Transformed(m, ts[0]), ts[1..]);
    }
  }

  /** With no reset among them, the operations are appended in the order of the calls. */
  lemma {:induction false} NoResetAppends(ops: seq<Transform>, ts: seq<Transform>)
    requires forall k :: 0 <= k < |ts| ==> ts[k] != Reset
    ensures SinceReset(ops, ts) == ops + ts
    decreases |ts|
  {
    if ts != [] {
      NoResetAppends(ops + [ts[0]], ts[1..]);
      assert ops + [ts[0]] + ts[1..] == ops + ts;
    }
  }

  /** The dimension-three variants used by rotateX/Y/Z: rotate(angle, axis). */
  function RotateX(angle: real): Transform { RotateAxis(angle, 1.0, 0.0, 0.0) }
  function RotateY(angle: real): Transform { RotateAxis(angle, 0.0, 1.0, 0.0) }
  function RotateZ(angle: real): Transform { RotateAxis(angle, 0.0, 0.0, 1.0) }

  /**
   * applyMatrix(PMatrix2D) goes through the sixteen-entry form, embedding
   * the 2D matrix in 3D space, so it asks for three dimensions.
   */
  function Embed2D(m00: real, m01: real, m02: real, m10: real, m11: real, m12: real): (t: Transform)
    ensures Dims(t) == 3 && t.Apply3? && |t.entries| == 16
  {
    Apply3([m00, m01, 0.0, m02, m10, m11, 0.0, m12, 0.0, 0.0, 1.0, 0.0, 0.0, 0.0, 0.0, 1.0])
  }
}
