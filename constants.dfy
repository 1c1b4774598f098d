/**
 * Integer constants the shape code uses.  The shape families come from
 * PShape's companion object; the vertex codes, modes, shape kinds and the
 * offsets of the fields of a vertex record are Processing's published
 * values from PConstants and PGraphics (neither file is part of this model).
 */
module Constants {
  // Shape families (PConstants.GROUP and PShape's companion object).
  const GROUP: int := 0
  const PRIMITIVE: int := 101
  const PATH: int := 102
  const GEOMETRY: int := 103

  // Vertex codes of a path.
  const VERTEX: int := 0
  const BEZIER_VERTEX: int := 1
  const QUADRATIC_VERTEX: int := 2
  const CURVE_VERTEX: int := 3
  const BREAK: int := 4

  // endShape modes.
  const OPEN: int := 1
  const CLOSE: int := 2

  // Colour modes.
  const RGB: int := 1
  const HSB: int := 3

  // Primitive kinds.
  const POINT: int := 2
  const LINE: int := 4
  const TRIANGLE: int := 8
  const QUAD: int := 16
  const POLYGON: int := 20
  const RECT: int := 30
  const ELLIPSE: int := 31
  const ARC: int := 32
  const SPHERE: int := 40
  const BOX: int := 41

  // Rectangle, ellipse and image modes.
  const CORNER: int := 0

  // Offsets of the fields of a vertex record.
  const X: nat := 0
  const Y: nat := 1
  const Z: nat := 2
  const R: nat := 3
  const G: nat := 4
  const B: nat := 5
  const A: nat := 6
  const U: nat := 7
  const V: nat := 8
  const NX: nat := 9
  const NY: nat := 10
  const NZ: nat := 11
  const SR: nat := 13
  const SG: nat := 14
  const SB: nat := 15
  const SA: nat := 16
  const SW: nat := 17
  const AR: nat := 25
  const AG: nat := 26
  const AB: nat := 27
  const SPR: nat := 28
  const SPG: nat := 29
  const SPB: nat := 30
  const SHINE: nat := 31
  const ER: nat := 32
  const EG: nat := 33
  const EB: nat := 34
}
