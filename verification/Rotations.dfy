/**
 `Matrix4::rotate` and what is built from it.  The cosine and sine of the angle enter as numbers
 `c` and `s` on the unit circle, the square root of `normalized()` as the length of the axis.
 */
module Rotations {
  import opened Vectors
  import opened Determinants
  import opened Matrices

  ghost predicate OnCircle(c: real, s: real) {
    c * c + s * s == 1.0
  }

  ghost predicate Unit(u: Vector3) {
    Dot3(u, u) == 1.0
  }

  ghost predicate Orthogonal(m: Mat4) {
    Mul(m, Transpose(m)) == IDENTITY && Mul(Transpose(m), m) == IDENTITY
  }

  function Normalized(p: Vector3, length: real): Vector3
    requires length != 0.0
  {
    Vector3(p.x / length, p.y / length, p.z / length)
  }

  function Diag(x: real, c: real): real {
    c + x * x * (1.0 - c)
  }

  function Plus(x: real, y: real, w: real, c: real, s: real): real {
    x * y * (1.0 - c) + w * s
  }

  function Minus(x: real, y: real, w: real, c: real, s: real): real {
    x * y * (1.0 - c) - w * s
  }

  /** The matrix of `rotate` for a unit axis. */
  function AboutUnit(c: real, s: real, u: Vector3): Mat4 {
    Mat4(Diag(u.x, c), Minus(u.x, u.y, u.z, c, s), Plus(u.x, u.z, u.y, c, s), 0.0,
         Plus(u.y, u.x, u.z, c, s), Diag(u.y, c), Minus(u.y, u.z, u.x, c, s), 0.0,
         Minus(u.z, u.x, u.y, c, s), Plus(u.z, u.y, u.x, c, s), Diag(u.z, c), 0.0,
         0.0, 0.0, 0.0, 1.0)
  }

  /** `rotate(angle, p)`: any axis of positive length, normalised first. */
  function Rotate(c: real, s: real, p: Vector3, length: real): Mat4
    requires length != 0.0
  {
    AboutUnit(c, s, Normalized(p, length))
  }

  /** `rollPitchYaw`: yaw about z, times pitch about y, times roll about x. */
  function RollPitchYaw(cr: real, sr: real, cp: real, sp: real, cy: real, sy: real): Mat4 {
    Mul(Mul(Rotate(cy, sy, Vector3(0.0, 0.0, 1.0), 1.0), Rotate(cp, sp, Vector3(0.0, 1.0, 0.0), 1.0)),
        Rotate(cr, sr, Vector3(1.0, 0.0, 0.0), 1.0))
  }

  // ----- rotations about one axis compose by the angle-sum formulas

  function Sum3(p: real, a: real, q: real, b: real, r: real, c: real): real {
    p * a + q * b + r * c
  }

  /** Vanishes on unit axes. */
  function Excess(x: real, y: real, z: real, k: real): real {
    (x * x + y * y + z * z - 1.0) * k
  }

  lemma NoExcess(u: Vector3)
    requires Unit(u)
    ensures forall k :: Excess(u.x, u.y, u.z, k) == 0.0
    ensures forall k :: Excess(u.y, u.z, u.x, k) == 0.0
    ensures forall k :: Excess(u.z, u.x, u.y, k) == 0.0
  {
    assert u.x * u.x + u.y * u.y + u.z * u.z - 1.0 == 0.0;
    assert u.y * u.y + u.z * u.z + u.x * u.x - 1.0 == 0.0;
    assert u.z * u.z + u.x * u.x + u.y * u.y - 1.0 == 0.0;
  }

  /** No translation and no projection: the last row and column are those of the identity. */
  ghost predicate Linear(m: Mat4) {
    && m.m03 == 0.0 && m.m13 == 0.0 && m.m23 == 0.0
    && m.m30 == 0.0 && m.m31 == 0.0 && m.m32 == 0.0 && m.m33 == 1.0
  }

  lemma CombineLinear(u: Vector4, b: Mat4)
    requires Linear(b) && u.w == 0.0
    ensures Combine(u, Row0(b), Row1(b), Row2(b), Row3(b))
         == Vector4(Sum3(u.x, b.m00, u.y, b.m10, u.z, b.m20), Sum3(u.x, b.m01, u.y, b.m11, u.z, b.m21),
                    Sum3(u.x, b.m02, u.y, b.m12, u.z, b.m22), 0.0)
  {
  }

  lemma SumTurned(p: real, a: real, q: real, b: real, r: real, c: real)
    ensures Sum3(p, a, q, b, r, c) == Sum3(q, b, r, c, p, a) == Sum3(r, c, p, a, q, b)
  {
  }

  lemma MulLinear(a: Mat4, b: Mat4)
    requires Linear(a) && Linear(b)
    ensures Mul(a, b) == Mat4(
      Sum3(a.m00, b.m00, a.m01, b.m10, a.m02, b.m20),
      Sum3(a.m00, b.m01, a.m01, b.m11, a.m02, b.m21),
      Sum3(a.m00, b.m02, a.m01, b.m12, a.m02, b.m22), 0.0,
      Sum3(a.m11, b.m10, a.m12, b.m20, a.m10, b.m00),
      Sum3(a.m11, b.m11, a.m12, b.m21, a.m10, b.m01),
      Sum3(a.m11, b.m12, a.m12, b.m22, a.m10, b.m02), 0.0,
      Sum3(a.m22, b.m20, a.m20, b.m00, a.m21, b.m10),
      Sum3(a.m22, b.m21, a.m20, b.m01, a.m21, b.m11),
      Sum3(a.m22, b.m22, a.m20, b.m02, a.m21, b.m12), 0.0,
      0.0, 0.0, 0.0, 1.0)
  {
    assert Combine(Row3(a), Row0(b), Row1(b), Row2(b), Row3(b)) == Vector4(0.0, 0.0, 0.0, 1.0);
    hide Combine, Sum3;
    CombineLinear(Row0(a), b);
    CombineLinear(Row1(a), b);
    CombineLinear(Row2(a), b);
    SumTurned(a.m10, b.m00, a.m11, b.m10, a.m12, b.m20);
    SumTurned(a.m10, b.m01, a.m11, b.m11, a.m12, b.m21);
    SumTurned(a.m10, b.m02, a.m11, b.m12, a.m12, b.m22);
    SumTurned(a.m20, b.m00, a.m21, b.m10, a.m22, b.m20);
    SumTurned(a.m20, b.m01, a.m21, b.m11, a.m22, b.m21);
    SumTurned(a.m20, b.m02, a.m21, b.m12, a.m22, b.m22);
  }

  // For any axis, entry by entry, the product of two rotation matrices is the rotation by the sum
  // of the angles up to a multiple of (squared length of the axis - 1).  The three lemmas give the
  // first row; the other rows follow by renaming the coordinates cyclically.

  lemma ComposeDiagonal(x: real, y: real, z: real, c: real, s: real, d: real, t: real)
    ensures Sum3(Diag(x, c), Diag(x, d), Minus(x, y, z, c, s), Plus(y, x, z, d, t),
                 Plus(x, z, y, c, s), Minus(z, x, y, d, t))
         == Diag(x, c * d - s * t) + Excess(x, y, z, x * x * (1.0 - c) * (1.0 - d) - s * t)
  {
    assert Diag(x, c) * Diag(x, d)
        == (c + x * x * (1.0 - c)) * (d + x * x * (1.0 - d));
    assert Minus(x, y, z, c, s) * Plus(y, x, z, d, t)
        == (x * y * (1.0 - c) - z * s) * (y * x * (1.0 - d) + z * t);
    assert Plus(x, z, y, c, s) * Minus(z, x, y, d, t)
        == (x * z * (1.0 - c) + y * s) * (z * x * (1.0 - d) - y * t);
    assert Diag(x, c * d - s * t) == (c * d - s * t) + x * x * (1.0 - (c * d - s * t));
    assert Excess(x, y, z, x * x * (1.0 - c) * (1.0 - d) - s * t)
        == (x * x + y * y + z * z - 1.0) * (x * x * (1.0 - c) * (1.0 - d) - s * t);
  }

  lemma SameSum(p: real, a: real, q: real, b: real, r: real, e: real,
                p': real, a': real, q': real, b': real, r': real, e': real)
    requires p == p' && a == a' && q == q' && b == b' && r == r' && e == e'
    ensures Sum3(p, a, q, b, r, e) == Sum3(p', a', q', b', r', e')
  {
  }

  lemma ComposeNextIdentity(x: real, y: real, z: real, c: real, s: real, d: real, t: real)
    ensures Sum3(c + x * x * (1.0 - c), x * y * (1.0 - d) - z * t,
                 x * y * (1.0 - c) - z * s, d + y * y * (1.0 - d),
                 x * z * (1.0 - c) + y * s, z * y * (1.0 - d) + x * t)
         == x * y * (1.0 - (c * d - s * t)) - z * (s * d + c * t)
            + (x * x + y * y + z * z - 1.0) * (x * y * (1.0 - c) * (1.0 - d))
  {
  }

  lemma ComposeNext(x: real, y: real, z: real, c: real, s: real, d: real, t: real)
    ensures Sum3(Diag(x, c), Minus(x, y, z, d, t), Minus(x, y, z, c, s), Diag(y, d),
                 Plus(x, z, y, c, s), Plus(z, y, x, d, t))
         == Minus(x, y, z, c * d - s * t, s * d + c * t) + Excess(x, y, z, x * y * (1.0 - c) * (1.0 - d))
  {
    hide Sum3;
    SameSum(Diag(x, c), Minus(x, y, z, d, t), Minus(x, y, z, c, s), Diag(y, d),
            Plus(x, z, y, c, s), Plus(z, y, x, d, t),
            c + x * x * (1.0 - c), x * y * (1.0 - d) - z * t,
            x * y * (1.0 - c) - z * s, d + y * y * (1.0 - d),
            x * z * (1.0 - c) + y * s, z * y * (1.0 - d) + x * t);
    ComposeNextIdentity(x, y, z, c, s, d, t);
  }

  lemma ComposePreviousIdentity(x: real, y: real, z: real, c: real, s: real, d: real, t: real)
    ensures Sum3(c + x * x * (1.0 - c), x * z * (1.0 - d) + y * t,
                 x * y * (1.0 - c) - z * s, y * z * (1.0 - d) - x * t,
                 x * z * (1.0 - c) + y * s, d + z * z * (1.0 - d))
         == x * z * (1.0 - (c * d - s * t)) + y * (s * d + c * t)
            + (x * x + y * y + z * z - 1.0) * (x * z * (1.0 - c) * (1.0 - d))
  {
  }

  lemma ComposePrevious(x: real, y: real, z: real, c: real, s: real, d: real, t: real)
    ensures Sum3(Diag(x, c), Plus(x, z, y, d, t), Minus(x, y, z, c, s), Minus(y, z, x, d, t),
                 Plus(x, z, y, c, s), Diag(z, d))
         == Plus(x, z, y, c * d - s * t, s * d + c * t) + Excess(x, y, z, x * z * (1.0 - c) * (1.0 - d))
  {
    hide Sum3;
    SameSum(Diag(x, c), Plus(x, z, y, d, t), Minus(x, y, z, c, s), Minus(y, z, x, d, t),
            Plus(x, z, y, c, s), Diag(z, d),
            c + x * x * (1.0 - c), x * z * (1.0 - d) + y * t,
            x * y * (1.0 - c) - z * s, y * z * (1.0 - d) - x * t,
            x * z * (1.0 - c) + y * s, d + z * z * (1.0 - d));
    ComposePreviousIdentity(x, y, z, c, s, d, t);
  }

  /** Two rotations about the same axis multiply to the rotation by the sum of the angles. */
  lemma Compose(u: Vector3, c: real, s: real, d: real, t: real)
    requires Unit(u)
    ensures Mul(AboutUnit(c, s, u), AboutUnit(d, t, u)) == AboutUnit(c * d - s * t, s * d + c * t, u)
  {
    NoExcess(u);
    hide Mul, Sum3, Excess, Diag, Plus, Minus;
    MulLinear(AboutUnit(c, s, u), AboutUnit(d, t, u));
    ComposeDiagonal(u.x, u.y, u.z, c, s, d, t);
    ComposeNext(u.x, u.y, u.z, c, s, d, t);
    ComposePrevious(u.x, u.y, u.z, c, s, d, t);
    ComposeDiagonal(u.y, u.z, u.x, c, s, d, t);
    ComposeNext(u.y, u.z, u.x, c, s, d, t);
    ComposePrevious(u.y, u.z, u.x, c, s, d, t);
    ComposeDiagonal(u.z, u.x, u.y, c, s, d, t);
    ComposeNext(u.z, u.x, u.y, c, s, d, t);
    ComposePrevious(u.z, u.x, u.y, c, s, d, t);
  }

  // ----- a rotation is a proper orthogonal map that fixes its axis

  lemma NoRotation(u: Vector3)
    ensures AboutUnit(1.0, 0.0, u) == IDENTITY
  {
  }

  lemma TransposeReverses(c: real, s: real, u: Vector3)
    ensures Transpose(AboutUnit(c, s, u)) == AboutUnit(c, -s, u)
  {
  }

  /** The rotation matrix is orthogonal: its transpose turns back by the same angle. */
  lemma RotationOrthogonal(c: real, s: real, u: Vector3)
    requires Unit(u) && OnCircle(c, s)
    ensures Orthogonal(AboutUnit(c, s, u))
    ensures Inverse(AboutUnit(c, s, u)) == AboutUnit(c, -s, u)
  {
    hide AboutUnit, Mul, Transpose, Inverse;
    TransposeReverses(c, s, u);
    ComposeBack(c, s, u);
    InverseUnique(AboutUnit(c, s, u), AboutUnit(c, -s, u));
  }

  /** `Compose` for a known sum of angles. */
  lemma ComposeTo(u: Vector3, c: real, s: real, d: real, t: real, cosSum: real, sinSum: real)
    requires Unit(u)
    requires cosSum == c * d - s * t && sinSum == s * d + c * t
    ensures Mul(AboutUnit(c, s, u), AboutUnit(d, t, u)) == AboutUnit(cosSum, sinSum, u)
  {
    hide AboutUnit, Mul;
    Compose(u, c, s, d, t);
  }

  lemma ComposeBack(c: real, s: real, u: Vector3)
    requires Unit(u) && OnCircle(c, s)
    ensures Mul(AboutUnit(c, s, u), AboutUnit(c, -s, u)) == IDENTITY
    ensures Mul(AboutUnit(c, -s, u), AboutUnit(c, s, u)) == IDENTITY
  {
    hide AboutUnit, Mul;
    ComposeTo(u, c, s, c, -s, 1.0, 0.0);
    ComposeTo(u, c, -s, c, s, 1.0, 0.0);
    NoRotation(u);
  }

  /** Rodrigues' formula: c*v + s*(u x v) + (1 - c)*(u . v)*u, and w is untouched. */
  lemma Rodrigues(c: real, s: real, u: Vector3, v: Vector3, w: real)
    ensures var r := Add3(Add3(Scale3(v, c), Scale3(Cross3(u, v), s)), Scale3(u, (1.0 - c) * Dot3(u, v)));
      Apply(AboutUnit(c, s, u), Vector4(v.x, v.y, v.z, w)) == Vector4(r.x, r.y, r.z, w)
  {
    hide Sum3, Diag, Plus, Minus, Dot3, Apply;
    RodriguesRows(c, s, u, v);
    ApplyLinear(AboutUnit(c, s, u), v, w);
  }

  lemma RodriguesRows(c: real, s: real, u: Vector3, v: Vector3)
    ensures Sum3(Diag(u.x, c), v.x, Minus(u.x, u.y, u.z, c, s), v.y, Plus(u.x, u.z, u.y, c, s), v.z)
         == RodriguesCoordinate(c, s, u.x, u.y, u.z, v.x, v.y, v.z, Dot3(u, v))
    ensures Sum3(Diag(u.y, c), v.y, Minus(u.y, u.z, u.x, c, s), v.z, Plus(u.y, u.x, u.z, c, s), v.x)
         == RodriguesCoordinate(c, s, u.y, u.z, u.x, v.y, v.z, v.x, Dot3(u, v))
    ensures Sum3(Diag(u.z, c), v.z, Minus(u.z, u.x, u.y, c, s), v.x, Plus(u.z, u.y, u.x, c, s), v.y)
         == RodriguesCoordinate(c, s, u.z, u.x, u.y, v.z, v.x, v.y, Dot3(u, v))
  {
    hide Sum3, Diag, Plus, Minus, RodriguesCoordinate;
    RodriguesRow(c, s, u.x, u.y, u.z, v.x, v.y, v.z, Dot3(u, v));
    RodriguesRow(c, s, u.y, u.z, u.x, v.y, v.z, v.x, Dot3(u, v));
    RodriguesRow(c, s, u.z, u.x, u.y, v.z, v.x, v.y, Dot3(u, v));
  }

  lemma ApplyLinear(m: Mat4, v: Vector3, w: real)
    requires Linear(m)
    ensures Apply(m, Vector4(v.x, v.y, v.z, w))
         == Vector4(Sum3(m.m00, v.x, m.m01, v.y, m.m02, v.z), Sum3(m.m11, v.y, m.m12, v.z, m.m10, v.x),
                    Sum3(m.m22, v.z, m.m20, v.x, m.m21, v.y), w)
  {
  }

  /** One coordinate of the formula, for a given value of the dot product. */
  function RodriguesCoordinate(c: real, s: real, x: real, y: real, z: real,
                               p: real, q: real, r: real, dot: real): real {
    p * c + (y * r - z * q) * s + x * ((1.0 - c) * dot)
  }

  lemma RodriguesRow(c: real, s: real, x: real, y: real, z: real, p: real, q: real, r: real, dot: real)
    requires dot == x * p + y * q + z * r
    ensures Sum3(Diag(x, c), p, Minus(x, y, z, c, s), q, Plus(x, z, y, c, s), r)
         == RodriguesCoordinate(c, s, x, y, z, p, q, r, dot)
  {
    hide Sum3, Diag, Plus, Minus, RodriguesCoordinate;
    RodriguesRowExpanded(c, s, x, y, z, p, q, r);
  }

  lemma RodriguesRowExpanded(c: real, s: real, x: real, y: real, z: real, p: real, q: real, r: real)
    ensures Sum3(Diag(x, c), p, Minus(x, y, z, c, s), q, Plus(x, z, y, c, s), r)
         == RodriguesCoordinate(c, s, x, y, z, p, q, r, x * p + y * q + z * r)
  {
  }

  /** The axis does not move. */
  lemma RotationFixesAxis(c: real, s: real, u: Vector3)
    requires Unit(u)
    ensures Apply(AboutUnit(c, s, u), Vector4(u.x, u.y, u.z, 0.0)) == Vector4(u.x, u.y, u.z, 0.0)
  {
    hide AboutUnit, Apply;
    Rodrigues(c, s, u, u, 0.0);
    var k := (1.0 - c) * Dot3(u, u);
    assert k == 1.0 - c;
  }

  lemma DetLinear(m: Mat4)
    requires Linear(m)
    ensures Det(m) == Det3(m.m00, m.m01, m.m02, m.m10, m.m11, m.m12, m.m20, m.m21, m.m22)
  {
    assert Cross4(Row1(m), Row2(m), Row3(m)).x == m.m11 * m.m22 - m.m12 * m.m21;
    assert Cross4(Row1(m), Row2(m), Row3(m)).y == -(m.m10 * m.m22 - m.m12 * m.m20);
    assert Cross4(Row1(m), Row2(m), Row3(m)).z == m.m10 * m.m21 - m.m11 * m.m20;
  }

  function DetForm(c: real, s: real, n: real): real {
    (c + (1.0 - c) * n) * (c * c + s * s * n)
  }

  /** For an axis of squared length n: c + (1 - c)*n along the axis, c*c + s*s*n across it. */
  lemma RotationDet3(c: real, s: real, x: real, y: real, z: real)
    ensures Det3(c + x * x * (1.0 - c), x * y * (1.0 - c) - z * s, x * z * (1.0 - c) + y * s,
                 y * x * (1.0 - c) + z * s, c + y * y * (1.0 - c), y * z * (1.0 - c) - x * s,
                 z * x * (1.0 - c) - y * s, z * y * (1.0 - c) + x * s, c + z * z * (1.0 - c))
         == DetForm(c, s, x * x + y * y + z * z)
  {
    var n := x * x + y * y + z * z;
    assert (c + y * y * (1.0 - c)) * (c + z * z * (1.0 - c)) - (y * z * (1.0 - c) - x * s) * (z * y * (1.0 - c) + x * s)
        == c * c + c * (1.0 - c) * (n - x * x) + s * s * x * x;
    assert (y * x * (1.0 - c) + z * s) * (c + z * z * (1.0 - c))
         - (y * z * (1.0 - c) - x * s) * (z * x * (1.0 - c) - y * s)
        == c * (1.0 - c) * x * y + c * s * z + s * (1.0 - c) * z * n - s * s * x * y;
    assert (y * x * (1.0 - c) + z * s) * (z * y * (1.0 - c) + x * s)
         - (c + y * y * (1.0 - c)) * (z * x * (1.0 - c) - y * s)
        == s * (1.0 - c) * y * n + s * s * z * x - c * (1.0 - c) * z * x + c * s * y;
  }

  lemma RotationDet(c: real, s: real, u: Vector3)
    requires Unit(u) && OnCircle(c, s)
    ensures Det(AboutUnit(c, s, u)) == 1.0
  {
    hide Det, Det3, DetForm, Diag, Plus, Minus;
    DetLinear(AboutUnit(c, s, u));
    RotationDetEntries(c, s, u.x, u.y, u.z, Dot3(u, u));
    UnitDet(c, s, Dot3(u, u));
  }

  lemma SameDet3(a: real, b: real, c: real, d: real, e: real, f: real, g: real, h: real, i: real,
                 a': real, b': real, c': real, d': real, e': real, f': real, g': real, h': real, i': real)
    requires a == a' && b == b' && c == c' && d == d' && e == e' && f == f' && g == g' && h == h' && i == i'
    ensures Det3(a, b, c, d, e, f, g, h, i) == Det3(a', b', c', d', e', f', g', h', i')
  {
  }

  lemma RotationDetEntries(c: real, s: real, x: real, y: real, z: real, n: real)
    requires n == x * x + y * y + z * z
    ensures Det3(Diag(x, c), Minus(x, y, z, c, s), Plus(x, z, y, c, s),
                 Plus(y, x, z, c, s), Diag(y, c), Minus(y, z, x, c, s),
                 Minus(z, x, y, c, s), Plus(z, y, x, c, s), Diag(z, c))
         == DetForm(c, s, n)
  {
    hide Det3, DetForm;
    RotationDet3(c, s, x, y, z);
    SameDet3(Diag(x, c), Minus(x, y, z, c, s), Plus(x, z, y, c, s),
             Plus(y, x, z, c, s), Diag(y, c), Minus(y, z, x, c, s),
             Minus(z, x, y, c, s), Plus(z, y, x, c, s), Diag(z, c),
             c + x * x * (1.0 - c), x * y * (1.0 - c) - z * s, x * z * (1.0 - c) + y * s,
             y * x * (1.0 - c) + z * s, c + y * y * (1.0 - c), y * z * (1.0 - c) - x * s,
             z * x * (1.0 - c) - y * s, z * y * (1.0 - c) + x * s, c + z * z * (1.0 - c));
  }

  lemma UnitDet(c: real, s: real, n: real)
    requires n == 1.0 && OnCircle(c, s)
    ensures DetForm(c, s, n) == 1.0
  {
    assert c + (1.0 - c) * n == 1.0 && c * c + s * s * n == 1.0;
  }

  // ----- arbitrary axes

  lemma NormalizedIsUnit(p: Vector3, length: real)
    requires IsLength3(p, length) && length != 0.0
    ensures Unit(Normalized(p, length))
    ensures Scale3(Normalized(p, length), length) == p
  {
    var u, m := Normalized(p, length), length * length;
    SquareOfMultiple(u.x, length, p.x, m);
    SquareOfMultiple(u.y, length, p.y, m);
    SquareOfMultiple(u.z, length, p.z, m);
    SquareNonzero(length, m);
    CancelSquare(u.x * u.x, u.y * u.y, u.z * u.z, m, p.x * p.x, p.y * p.y, p.z * p.z);
  }

  lemma SquareNonzero(k: real, m: real)
    requires k > 0.0 && m == k * k
    ensures m > 0.0
  {
    assert m / k == k;
  }

  lemma SquareOfMultiple(a: real, k: real, p: real, m: real)
    requires k != 0.0 && a == p / k && m == k * k
    ensures a * k == p && p * p == (a * a) * m
  {
    assert a * k == p;
    assert p * p == (a * k) * (a * k);
  }

  lemma CancelSquare(a: real, b: real, c: real, m: real, p: real, q: real, r: real)
    requires p == a * m && q == b * m && r == c * m && m == p + q + r && m != 0.0
    ensures a + b + c == 1.0
  {
    assert (a + b + c - 1.0) * m == 0.0;
  }

  lemma ApplyScaled(m: Mat4, v: Vector4, k: real)
    ensures Apply(m, Scale4(v, k)) == Scale4(Apply(m, v), k)
  {
    DotScaled(Row0(m), v, Scale4(v, k), k);
    DotScaled(Row1(m), v, Scale4(v, k), k);
    DotScaled(Row2(m), v, Scale4(v, k), k);
    DotScaled(Row3(m), v, Scale4(v, k), k);
  }

  /** `rotate` about any axis of nonzero length is a proper orthogonal map that fixes the axis. */
  lemma RotateProper(c: real, s: real, p: Vector3, length: real)
    requires IsLength3(p, length) && length != 0.0 && OnCircle(c, s)
    ensures Orthogonal(Rotate(c, s, p, length))
    ensures Det(Rotate(c, s, p, length)) == 1.0
    ensures Apply(Rotate(c, s, p, length), Vector4(p.x, p.y, p.z, 0.0)) == Vector4(p.x, p.y, p.z, 0.0)
  {
    hide AboutUnit, Apply, Det, Mul, Transpose;
    var u := Normalized(p, length);
    NormalizedIsUnit(p, length);
    RotationOrthogonal(c, s, u);
    RotationDet(c, s, u);
    RotationFixesAxis(c, s, u);
    ApplyScaled(AboutUnit(c, s, u), Vector4(u.x, u.y, u.z, 0.0), length);
    assert Scale4(Vector4(u.x, u.y, u.z, 0.0), length) == Vector4(p.x, p.y, p.z, 0.0);
  }

  /** `rotate` about an axis of any length turns by Rodrigues' formula about the axis of length one. */
  lemma RotateTurns(c: real, s: real, u: Vector3, k: real, v: Vector3, w: real)
    requires k > 0.0
    ensures var r := Add3(Add3(Scale3(v, c), Scale3(Cross3(u, v), s)), Scale3(u, (1.0 - c) * Dot3(u, v)));
      Apply(Rotate(c, s, Scale3(u, k), k), Vector4(v.x, v.y, v.z, w)) == Vector4(r.x, r.y, r.z, w)
  {
    NormalizeMultiple(u, k);
    hide Apply, AboutUnit, Add3, Cross3, Dot3, Scale3;
    Rodrigues(c, s, u, v, w);
  }

  lemma NormalizeMultiple(u: Vector3, k: real)
    requires k > 0.0
    ensures Normalized(Scale3(u, k), k) == u
  {
  }

  // ----- products of rotations

  lemma OrthogonalMul(a: Mat4, b: Mat4)
    requires Orthogonal(a) && Orthogonal(b)
    ensures Orthogonal(Mul(a, b))
  {
    hide Mul, Transpose;
    var at, bt := Transpose(a), Transpose(b);
    TransposeMul(a, b);
    // (a b)(bt at) == a ((b bt) at) and (bt at)(a b) == bt ((at a) b)
    MulAssociative(a, b, Mul(bt, at));
    MulAssociative(b, bt, at);
    MulAssociative(bt, at, Mul(a, b));
    MulAssociative(at, a, b);
    MulIdentity(at);
    MulIdentity(b);
  }

  lemma DotApply(m: Mat4, v: Vector4, w: Vector4)
    ensures Dot4(Apply(m, v), w) == Dot4(v, Apply(Transpose(m), w))
  {
    var t := Transpose(m);
    CombineColumns(v, m);
    DotCombine(v, Row0(t), Row1(t), Row2(t), Row3(t), w);
    hide Dot4, Combine;
  }

  /** Orthogonal maps preserve every product, so all lengths and angles. */
  lemma OrthogonalPreservesDot(m: Mat4, v: Vector4, w: Vector4)
    requires Orthogonal(m)
    ensures Dot4(Apply(m, v), Apply(m, w)) == Dot4(v, w)
  {
    DotApply(m, v, Apply(m, w));
    ApplyMul(Transpose(m), m, w);
    assert Apply(IDENTITY, w) == w;
  }

  lemma AxisRotation(c: real, s: real, p: Vector3)
    requires Unit(p) && OnCircle(c, s)
    ensures Orthogonal(Rotate(c, s, p, 1.0)) && Det(Rotate(c, s, p, 1.0)) == 1.0
    ensures Inverse(Rotate(c, s, p, 1.0)) == Rotate(c, -s, p, 1.0)
  {
    assert Normalized(p, 1.0) == p;
    RotationOrthogonal(c, s, p);
    RotationDet(c, s, p);
  }

  /**
   Every `rollPitchYaw` matrix is a proper rotation, undone by turning back about the three axes
   in the opposite order.
   */
  lemma RollPitchYawProper(cr: real, sr: real, cp: real, sp: real, cy: real, sy: real)
    requires OnCircle(cr, sr) && OnCircle(cp, sp) && OnCircle(cy, sy)
    ensures Orthogonal(RollPitchYaw(cr, sr, cp, sp, cy, sy))
    ensures Det(RollPitchYaw(cr, sr, cp, sp, cy, sy)) == 1.0
    ensures Inverse(RollPitchYaw(cr, sr, cp, sp, cy, sy))
         == Mul(Rotate(cr, -sr, Vector3(1.0, 0.0, 0.0), 1.0),
                Mul(Rotate(cp, -sp, Vector3(0.0, 1.0, 0.0), 1.0), Rotate(cy, -sy, Vector3(0.0, 0.0, 1.0), 1.0)))
  {
    var x, y, z := Vector3(1.0, 0.0, 0.0), Vector3(0.0, 1.0, 0.0), Vector3(0.0, 0.0, 1.0);
    hide Orthogonal, Rotate, Mul, Det, Inverse, OnCircle;
    AxisRotation(cr, sr, x);
    AxisRotation(cp, sp, y);
    AxisRotation(cy, sy, z);
    ProperProduct(Rotate(cy, sy, z, 1.0), Rotate(cp, sp, y, 1.0), Rotate(cr, sr, x, 1.0));
  }

  lemma ProperProduct(a: Mat4, b: Mat4, c: Mat4)
    requires Orthogonal(a) && Orthogonal(b) && Orthogonal(c)
    requires Det(a) == Det(b) == Det(c) == 1.0
    ensures Orthogonal(Mul(Mul(a, b), c)) && Det(Mul(Mul(a, b), c)) == 1.0
    ensures Inverse(Mul(Mul(a, b), c)) == Mul(Inverse(c), Mul(Inverse(b), Inverse(a)))
  {
    hide Mul, Det, Inverse, Orthogonal;
    OrthogonalMul(a, b);
    OrthogonalMul(Mul(a, b), c);
    DetMul(a, b);
    DetMul(Mul(a, b), c);
    InverseOfRegularProduct(a, b);
    InverseOfRegularProduct(Mul(a, b), c);
  }
}
