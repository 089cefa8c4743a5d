/**
 * Points and the affine transforms of the renderer. Transform.java is not
 * part of this model: a transform is taken to be the usual 4x4 matrix whose
 * last row is (0, 0, 0, 1), `multiply` applies it to the point (x, y, z, 1),
 * and `compose` is the matrix product (the right-hand transform acts first).
 * Coordinates are reals: float rounding is not modelled.
 */
module Geometry {

  datatype Vector3D = Vector3D(x: real, y: real, z: real)

  /** One of the first three rows of the matrix. */
  datatype MatrixRow = MatrixRow(a: real, b: real, c: real, d: real)

  datatype Transform = Transform(r0: MatrixRow, r1: MatrixRow, r2: MatrixRow)

  function RowTimes(r: MatrixRow, v: Vector3D): real
  {
    r.a * v.x + r.b * v.y + r.c * v.z + r.d
  }

  /** `Transform.multiply(v)`. */
  function Multiply(t: Transform, v: Vector3D): Vector3D
  {
    Vector3D(RowTimes(t.r0, v), RowTimes(t.r1, v), RowTimes(t.r2, v))
  }

  function ComposeRow(r: MatrixRow, t: Transform): MatrixRow
  {
    MatrixRow(r.a * t.r0.a + r.b * t.r1.a + r.c * t.r2.a,
              r.a * t.r0.b + r.b * t.r1.b + r.c * t.r2.b,
              r.a * t.r0.c + r.b * t.r1.c + r.c * t.r2.c,
              r.a * t.r0.d + r.b * t.r1.d + r.c * t.r2.d + r.d)
  }

  /** `s.compose(t)`. */
  function Compose(s: Transform, t: Transform): Transform
  {
    Transform(ComposeRow(s.r0, t), ComposeRow(s.r1, t), ComposeRow(s.r2, t))
  }

  lemma ComposeRowTimes(r: MatrixRow, t: Transform, v: Vector3D)
    ensures RowTimes(ComposeRow(r, t), v) == RowTimes(r, Multiply(t, v))
  {
    Distribute(r.a, r.b, r.c, t.r0.a, t.r1.a, t.r2.a, v.x);
    Distribute(r.a, r.b, r.c, t.r0.b, t.r1.b, t.r2.b, v.y);
    Distribute(r.a, r.b, r.c, t.r0.c, t.r1.c, t.r2.c, v.z);
    Spread(r.a, t.r0.a * v.x, t.r0.b * v.y, t.r0.c * v.z, t.r0.d);
    Spread(r.b, t.r1.a * v.x, t.r1.b * v.y, t.r1.c * v.z, t.r1.d);
    Spread(r.c, t.r2.a * v.x, t.r2.b * v.y, t.r2.c * v.z, t.r2.d);
  }

  lemma Distribute(p: real, q: real, w: real, a: real, b: real, c: real, x: real)
    ensures (p * a + q * b + w * c) * x == p * (a * x) + q * (b * x) + w * (c * x)
  {
  }

  lemma Spread(p: real, a: real, b: real, c: real, d: real)
    ensures p * (a + b + c + d) == p * a + p * b + p * c + p * d
  {
  }

  /** Applying a composed transform is applying the right one, then the left one. */
  lemma ComposeMultiply(s: Transform, t: Transform, v: Vector3D)
    ensures Multiply(Compose(s, t), v) == Multiply(s, Multiply(t, v))
  {
    ComposeRowTimes(s.r0, t, v);
    ComposeRowTimes(s.r1, t, v);
    ComposeRowTimes(s.r2, t, v);
  }

  /** `Transform.newTranslation(dx, dy, dz)`. */
  function Translation(dx: real, dy: real, dz: real): (t: Transform)
    ensures forall v :: Multiply(t, v) == Vector3D(v.x + dx, v.y + dy, v.z + dz)
  {
    Transform(MatrixRow(1.0, 0.0, 0.0, dx), MatrixRow(0.0, 1.0, 0.0, dy), MatrixRow(0.0, 0.0, 1.0, dz))
  }

  /** `Transform.newScale(sx, sy, sz)`. */
  function Scaling(sx: real, sy: real, sz: real): (t: Transform)
    ensures forall v :: Multiply(t, v) == Vector3D(sx * v.x, sy * v.y, sz * v.z)
  {
    Transform(MatrixRow(sx, 0.0, 0.0, 0.0), MatrixRow(0.0, sy, 0.0, 0.0), MatrixRow(0.0, 0.0, sz, 0.0))
  }

  function Identity(): Transform
  {
    Scaling(1.0, 1.0, 1.0)
  }

  /** Two translations compose to the translation by the sum of their offsets. */
  lemma TranslationsAdd(dx: real, dy: real, dz: real, ex: real, ey: real, ez: real)
    ensures Compose(Translation(dx, dy, dz), Translation(ex, ey, ez)) == Translation(dx + ex, dy + ey, dz + ez)
  {
  }

  /** Translating by an offset and then by its opposite is the identity. */
  lemma TranslationInverse(dx: real, dy: real, dz: real)
    ensures Compose(Translation(-dx, -dy, -dz), Translation(dx, dy, dz)) == Identity()
  {
    TranslationsAdd(-dx, -dy, -dz, dx, dy, dz);
  }

  /** Scaling by non-zero factors is undone by scaling by their inverses. */
  lemma ScalingInverse(sx: real, sy: real, sz: real)
    requires sx != 0.0 && sy != 0.0 && sz != 0.0
    ensures Compose(Scaling(1.0 / sx, 1.0 / sy, 1.0 / sz), Scaling(sx, sy, sz)) == Identity()
  {
  }

  function Minus(p: Vector3D, q: Vector3D): Vector3D
  {
    Vector3D(p.x - q.x, p.y - q.y, p.z - q.z)
  }

  function Cross(p: Vector3D, q: Vector3D): Vector3D
  {
    Vector3D(p.y * q.z - p.z * q.y, p.z * q.x - p.x * q.z, p.x * q.y - p.y * q.x)
  }
}
