/**
 Four by four matrices over the reals: the mathematics behind util/Matrix.cpp.

 `Mat4` is the value of a matrix, entry m<row><column>.  The inverse is defined here from the
 determinant and the generalised cross product, not from the expanded polynomials of the source;
 the class `Matrix4` in MatrixStorage.dfy is proved to compute it.
 */
module Matrices {
  import opened Vectors
  import opened Determinants

  datatype Mat4 = Mat4(
    m00: real, m01: real, m02: real, m03: real,
    m10: real, m11: real, m12: real, m13: real,
    m20: real, m21: real, m22: real, m23: real,
    m30: real, m31: real, m32: real, m33: real)

  const IDENTITY := FromRows(Vector4(1.0, 0.0, 0.0, 0.0), Vector4(0.0, 1.0, 0.0, 0.0),
                             Vector4(0.0, 0.0, 1.0, 0.0), Vector4(0.0, 0.0, 0.0, 1.0))

  function Row0(m: Mat4): Vector4 { Vector4(m.m00, m.m01, m.m02, m.m03) }
  function Row1(m: Mat4): Vector4 { Vector4(m.m10, m.m11, m.m12, m.m13) }
  function Row2(m: Mat4): Vector4 { Vector4(m.m20, m.m21, m.m22, m.m23) }
  function Row3(m: Mat4): Vector4 { Vector4(m.m30, m.m31, m.m32, m.m33) }

  function FromRows(a: Vector4, b: Vector4, c: Vector4, d: Vector4): Mat4 {
    Mat4(a.x, a.y, a.z, a.w, b.x, b.y, b.z, b.w, c.x, c.y, c.z, c.w, d.x, d.y, d.z, d.w)
  }

  function FromColumns(a: Vector4, b: Vector4, c: Vector4, d: Vector4): Mat4 {
    Mat4(a.x, b.x, c.x, d.x, a.y, b.y, c.y, d.y, a.z, b.z, c.z, d.z, a.w, b.w, c.w, d.w)
  }

  function Transpose(m: Mat4): Mat4 {
    FromColumns(Row0(m), Row1(m), Row2(m), Row3(m))
  }

  /** Each row of the product combines the rows of `b`, weighted by the same row of `a`. */
  function Mul(a: Mat4, b: Mat4): Mat4 {
    FromRows(Combine(Row0(a), Row0(b), Row1(b), Row2(b), Row3(b)),
             Combine(Row1(a), Row0(b), Row1(b), Row2(b), Row3(b)),
             Combine(Row2(a), Row0(b), Row1(b), Row2(b), Row3(b)),
             Combine(Row3(a), Row0(b), Row1(b), Row2(b), Row3(b)))
  }

  function Apply(m: Mat4, v: Vector4): Vector4 {
    Vector4(Dot4(Row0(m), v), Dot4(Row1(m), v), Dot4(Row2(m), v), Dot4(Row3(m), v))
  }

  function Scaled(m: Mat4, k: real): Mat4 {
    Mat4(Times(m.m00, k), Times(m.m01, k), Times(m.m02, k), Times(m.m03, k),
         Times(m.m10, k), Times(m.m11, k), Times(m.m12, k), Times(m.m13, k),
         Times(m.m20, k), Times(m.m21, k), Times(m.m22, k), Times(m.m23, k),
         Times(m.m30, k), Times(m.m31, k), Times(m.m32, k), Times(m.m33, k))
  }

  function Det(m: Mat4): real {
    Det4(Row0(m), Row1(m), Row2(m), Row3(m))
  }

  /** Column c is orthogonal to every row but c, and its product with row c is the determinant. */
  function Adjugate(m: Mat4): Mat4 {
    FromColumns(Cross4(Row1(m), Row2(m), Row3(m)),
                Scale4(Cross4(Row0(m), Row2(m), Row3(m)), -1.0),
                Cross4(Row0(m), Row1(m), Row3(m)),
                Scale4(Cross4(Row0(m), Row1(m), Row2(m)), -1.0))
  }

  /** What `Matrix4::invert` promises: the inverse, or the identity for a singular matrix. */
  function Inverse(m: Mat4): Mat4 {
    if Det(m) != 0.0 then Scaled(Adjugate(m), 1.0 / Det(m)) else IDENTITY
  }

  // ----- the source's hand-expanded polynomials are the adjugate and the determinant

  lemma AdjugateRow0(m: Mat4)
    ensures Adjugate(m).m00 == m.m11 * m.m22 * m.m33 - m.m11 * m.m32 * m.m23 - m.m12 * m.m21 * m.m33
            + m.m12 * m.m31 * m.m23 + m.m13 * m.m21 * m.m32 - m.m13 * m.m31 * m.m22
    ensures Adjugate(m).m01 == -m.m01 * m.m22 * m.m33 + m.m01 * m.m32 * m.m23 + m.m02 * m.m21 * m.m33
            - m.m02 * m.m31 * m.m23 - m.m03 * m.m21 * m.m32 + m.m03 * m.m31 * m.m22
    ensures Adjugate(m).m02 == m.m01 * m.m12 * m.m33 - m.m01 * m.m32 * m.m13 - m.m02 * m.m11 * m.m33
            + m.m02 * m.m31 * m.m13 + m.m03 * m.m11 * m.m32 - m.m03 * m.m31 * m.m12
    ensures Adjugate(m).m03 == -m.m01 * m.m12 * m.m23 + m.m01 * m.m22 * m.m13 + m.m02 * m.m11 * m.m23
            - m.m02 * m.m21 * m.m13 - m.m03 * m.m11 * m.m22 + m.m03 * m.m21 * m.m12
  {
  }

  lemma AdjugateRow1(m: Mat4)
    ensures Adjugate(m).m10 == -m.m10 * m.m22 * m.m33 + m.m10 * m.m32 * m.m23 + m.m12 * m.m20 * m.m33
            - m.m12 * m.m30 * m.m23 - m.m13 * m.m20 * m.m32 + m.m13 * m.m30 * m.m22
    ensures Adjugate(m).m11 == m.m00 * m.m22 * m.m33 - m.m00 * m.m32 * m.m23 - m.m02 * m.m20 * m.m33
            + m.m02 * m.m30 * m.m23 + m.m03 * m.m20 * m.m32 - m.m03 * m.m30 * m.m22
    ensures Adjugate(m).m12 == -m.m00 * m.m12 * m.m33 + m.m00 * m.m32 * m.m13 + m.m02 * m.m10 * m.m33
            - m.m02 * m.m30 * m.m13 - m.m03 * m.m10 * m.m32 + m.m03 * m.m30 * m.m12
    ensures Adjugate(m).m13 == m.m00 * m.m12 * m.m23 - m.m00 * m.m22 * m.m13 - m.m02 * m.m10 * m.m23
            + m.m02 * m.m20 * m.m13 + m.m03 * m.m10 * m.m22 - m.m03 * m.m20 * m.m12
  {
  }

  lemma AdjugateRow2(m: Mat4)
    ensures Adjugate(m).m20 == m.m10 * m.m21 * m.m33 - m.m10 * m.m31 * m.m23 - m.m11 * m.m20 * m.m33
            + m.m11 * m.m30 * m.m23 + m.m13 * m.m20 * m.m31 - m.m13 * m.m30 * m.m21
    ensures Adjugate(m).m21 == -m.m00 * m.m21 * m.m33 + m.m00 * m.m31 * m.m23 + m.m01 * m.m20 * m.m33
            - m.m01 * m.m30 * m.m23 - m.m03 * m.m20 * m.m31 + m.m03 * m.m30 * m.m21
    ensures Adjugate(m).m22 == m.m00 * m.m11 * m.m33 - m.m00 * m.m31 * m.m13 - m.m01 * m.m10 * m.m33
            + m.m01 * m.m30 * m.m13 + m.m03 * m.m10 * m.m31 - m.m03 * m.m30 * m.m11
    ensures Adjugate(m).m23 == -m.m00 * m.m11 * m.m23 + m.m00 * m.m21 * m.m13 + m.m01 * m.m10 * m.m23
            - m.m01 * m.m20 * m.m13 - m.m03 * m.m10 * m.m21 + m.m03 * m.m20 * m.m11
  {
  }

  lemma AdjugateRow3(m: Mat4)
    ensures Adjugate(m).m30 == -m.m10 * m.m21 * m.m32 + m.m10 * m.m31 * m.m22 + m.m11 * m.m20 * m.m32
            - m.m11 * m.m30 * m.m22 - m.m12 * m.m20 * m.m31 + m.m12 * m.m30 * m.m21
    ensures Adjugate(m).m31 == m.m00 * m.m21 * m.m32 - m.m00 * m.m31 * m.m22 - m.m01 * m.m20 * m.m32
            + m.m01 * m.m30 * m.m22 + m.m02 * m.m20 * m.m31 - m.m02 * m.m30 * m.m21
    ensures Adjugate(m).m32 == -m.m00 * m.m11 * m.m32 + m.m00 * m.m31 * m.m12 + m.m01 * m.m10 * m.m32
            - m.m01 * m.m30 * m.m12 - m.m02 * m.m10 * m.m31 + m.m02 * m.m30 * m.m11
    ensures Adjugate(m).m33 == m.m00 * m.m11 * m.m22 - m.m00 * m.m21 * m.m12 - m.m01 * m.m10 * m.m22
            + m.m01 * m.m20 * m.m12 + m.m02 * m.m10 * m.m21 - m.m02 * m.m20 * m.m11
  {
  }

  lemma LaplaceRowIsColumn(a: real, b: real, c: real, d: real, e: real, f: real, g: real, h: real,
                           i: real, j: real, k: real, l: real, m: real, n: real, o: real, p: real)
    ensures a * Det3(f, g, h, j, k, l, n, o, p) - b * Det3(e, g, h, i, k, l, m, o, p)
              + c * Det3(e, f, h, i, j, l, m, n, p) - d * Det3(e, f, g, i, j, k, m, n, o)
         == a * Det3(f, g, h, j, k, l, n, o, p) - e * Det3(b, c, d, j, k, l, n, o, p)
              + i * Det3(b, c, d, f, g, h, n, o, p) - m * Det3(b, c, d, f, g, h, j, k, l)
  {
  }

  /** The source expands along the first column; the determinant does not depend on that choice. */
  lemma FirstColumnExpansion(m: Mat4)
    ensures var a := Adjugate(m);
            m.m00 * a.m00 + m.m10 * a.m01 + m.m20 * a.m02 + m.m30 * a.m03 == Det(m)
  {
    LaplaceRowIsColumn(m.m00, m.m01, m.m02, m.m03, m.m10, m.m11, m.m12, m.m13,
                       m.m20, m.m21, m.m22, m.m23, m.m30, m.m31, m.m32, m.m33);
  }

  // ----- ring laws

  lemma MulIdentity(m: Mat4)
    ensures Mul(m, IDENTITY) == m
    ensures Mul(IDENTITY, m) == m
  {
  }

  lemma Trilinear(x: real, y: real, z: real, w: real,
                  a1: real, a2: real, a3: real, a4: real, b1: real, b2: real, b3: real, b4: real,
                  c1: real, c2: real, c3: real, c4: real, d1: real, d2: real, d3: real, d4: real,
                  p: real, q: real, r: real, s: real)
    ensures (x * a1 + y * b1 + z * c1 + w * d1) * p + (x * a2 + y * b2 + z * c2 + w * d2) * q
            + (x * a3 + y * b3 + z * c3 + w * d3) * r + (x * a4 + y * b4 + z * c4 + w * d4) * s
         == x * (a1 * p + a2 * q + a3 * r + a4 * s) + y * (b1 * p + b2 * q + b3 * r + b4 * s)
            + z * (c1 * p + c2 * q + c3 * r + c4 * s) + w * (d1 * p + d2 * q + d3 * r + d4 * s)
  {
  }

  lemma DotCombine(u: Vector4, a: Vector4, b: Vector4, c: Vector4, d: Vector4, v: Vector4)
    ensures Dot4(Combine(u, a, b, c, d), v) == Dot4(u, Vector4(Dot4(a, v), Dot4(b, v), Dot4(c, v), Dot4(d, v)))
  {
    Trilinear(u.x, u.y, u.z, u.w, a.x, a.y, a.z, a.w, b.x, b.y, b.z, b.w,
              c.x, c.y, c.z, c.w, d.x, d.y, d.z, d.w, v.x, v.y, v.z, v.w);
  }

  /** Combining combinations: one row of associativity. */
  lemma CombineAssociative(u: Vector4, a: Vector4, b: Vector4, c: Vector4, d: Vector4,
                           p: Vector4, q: Vector4, r: Vector4, s: Vector4)
    ensures Combine(Combine(u, a, b, c, d), p, q, r, s)
         == Combine(u, Combine(a, p, q, r, s), Combine(b, p, q, r, s), Combine(c, p, q, r, s), Combine(d, p, q, r, s))
  {
    DotCombine(u, a, b, c, d, Vector4(p.x, q.x, r.x, s.x));
    DotCombine(u, a, b, c, d, Vector4(p.y, q.y, r.y, s.y));
    DotCombine(u, a, b, c, d, Vector4(p.z, q.z, r.z, s.z));
    DotCombine(u, a, b, c, d, Vector4(p.w, q.w, r.w, s.w));
  }

  lemma MulAssociative(a: Mat4, b: Mat4, c: Mat4)
    ensures Mul(Mul(a, b), c) == Mul(a, Mul(b, c))
  {
    CombineAssociative(Row0(a), Row0(b), Row1(b), Row2(b), Row3(b), Row0(c), Row1(c), Row2(c), Row3(c));
    CombineAssociative(Row1(a), Row0(b), Row1(b), Row2(b), Row3(b), Row0(c), Row1(c), Row2(c), Row3(c));
    CombineAssociative(Row2(a), Row0(b), Row1(b), Row2(b), Row3(b), Row0(c), Row1(c), Row2(c), Row3(c));
    CombineAssociative(Row3(a), Row0(b), Row1(b), Row2(b), Row3(b), Row0(c), Row1(c), Row2(c), Row3(c));
  }

  /** Multiplying matrices composes the maps they stand for. */
  lemma ApplyMul(a: Mat4, b: Mat4, v: Vector4)
    ensures Apply(Mul(a, b), v) == Apply(a, Apply(b, v))
  {
    DotCombine(Row0(a), Row0(b), Row1(b), Row2(b), Row3(b), v);
    DotCombine(Row1(a), Row0(b), Row1(b), Row2(b), Row3(b), v);
    DotCombine(Row2(a), Row0(b), Row1(b), Row2(b), Row3(b), v);
    DotCombine(Row3(a), Row0(b), Row1(b), Row2(b), Row3(b), v);
  }

  lemma TransposeIdentity()
    ensures Transpose(IDENTITY) == IDENTITY
  {
  }

  /** A combination of the rows of `b` lists the products with the columns of `b`. */
  lemma CombineIsDots(u: Vector4, b: Mat4)
    ensures var t := Transpose(b);
      Combine(u, Row0(b), Row1(b), Row2(b), Row3(b))
      == Vector4(Dot4(u, Row0(t)), Dot4(u, Row1(t)), Dot4(u, Row2(t)), Dot4(u, Row3(t)))
  {
  }

  /** A combination of the columns of `a` lists the products with the rows of `a`. */
  lemma CombineColumns(u: Vector4, a: Mat4)
    ensures var t := Transpose(a); Combine(u, Row0(t), Row1(t), Row2(t), Row3(t)) == Apply(a, u)
  {
  }

  lemma TransposeMul(a: Mat4, b: Mat4)
    ensures Transpose(Mul(a, b)) == Mul(Transpose(b), Transpose(a))
  {
    hide Combine, Dot4;
    CombineIsDots(Row0(a), b);
    CombineIsDots(Row1(a), b);
    CombineIsDots(Row2(a), b);
    CombineIsDots(Row3(a), b);
    var t := Transpose(b);
    CombineColumns(Row0(t), a);
    CombineColumns(Row1(t), a);
    CombineColumns(Row2(t), a);
    CombineColumns(Row3(t), a);
  }

  // ----- determinants

  lemma DetIdentity()
    ensures Det(IDENTITY) == 1.0
  {
  }

  /** The determinant computed inside `invert` is multiplicative over `operator*`. */
  lemma DetMul(a: Mat4, b: Mat4)
    ensures Det(Mul(a, b)) == Det(a) * Det(b)
  {
    ProductRule(Row0(a), Row1(a), Row2(a), Row3(a), Row0(b), Row1(b), Row2(b), Row3(b));
  }

  lemma DetTranspose(m: Mat4)
    ensures Det(Transpose(m)) == Det(m)
  {
    Det4IsLeibniz(Row0(m), Row1(m), Row2(m), Row3(m));
    var t := Transpose(m);
    Det4IsLeibniz(Row0(t), Row1(t), Row2(t), Row3(t));
  }

  // ----- the inverse

  /** A row against the adjugate: only the matching column survives. */
  lemma RowTimesAdjugate(m: Mat4, u: Vector4)
    ensures var a := Adjugate(m);
      Combine(u, Row0(a), Row1(a), Row2(a), Row3(a))
      == Vector4(Det4(u, Row1(m), Row2(m), Row3(m)), -Det4(u, Row0(m), Row2(m), Row3(m)),
                 Det4(u, Row0(m), Row1(m), Row3(m)), -Det4(u, Row0(m), Row1(m), Row2(m)))
  {
  }

  lemma MulAdjugate(m: Mat4)
    ensures Mul(m, Adjugate(m)) == Scaled(IDENTITY, Det(m))
  {
    var a, b, c, d := Row0(m), Row1(m), Row2(m), Row3(m);
    RowTimesAdjugate(m, a);
    RowTimesAdjugate(m, b);
    RowTimesAdjugate(m, c);
    RowTimesAdjugate(m, d);
    RepeatedRow(a, b, c); RepeatedRow(a, b, d); RepeatedRow(a, c, d);
    RepeatedRow(b, a, c); RepeatedRow(b, a, d); RepeatedRow(b, c, d);
    RepeatedRow(c, a, b); RepeatedRow(c, a, d); RepeatedRow(c, b, d);
    RepeatedRow(d, a, b); RepeatedRow(d, a, c); RepeatedRow(d, b, c);
    SwapFirst(a, b, c, d);
    SwapFirst(a, c, b, d); SwapMiddle(a, b, c, d);
    SwapFirst(a, d, b, c); SwapMiddle(a, b, d, c); SwapLast(a, b, c, d);
  }

  lemma DotScaled(u: Vector4, v: Vector4, w: Vector4, k: real)
    requires w == Scale4(v, k)
    ensures Dot4(u, w) == Times(Dot4(u, v), k)
  {
    assert w.x == v.x * k && w.y == v.y * k && w.z == v.z * k && w.w == v.w * k;
    assert u.x * w.x == u.x * v.x * k && u.y * w.y == u.y * v.y * k;
    assert u.z * w.z == u.z * v.z * k && u.w * w.w == u.w * v.w * k;
  }

  lemma MulScaled(a: Mat4, b: Mat4, k: real)
    ensures Mul(a, Scaled(b, k)) == Scaled(Mul(a, b), k)
  {
    hide Combine, Times;
    CombineScaled(Row0(a), b, k);
    CombineScaled(Row1(a), b, k);
    CombineScaled(Row2(a), b, k);
    CombineScaled(Row3(a), b, k);
  }

  lemma CombineScaled(u: Vector4, b: Mat4, k: real)
    ensures var s := Scaled(b, k);
      Combine(u, Row0(s), Row1(s), Row2(s), Row3(s))
      == Scale4(Combine(u, Row0(b), Row1(b), Row2(b), Row3(b)), k)
  {
    hide Combine, Dot4, Times;
    var s, t := Scaled(b, k), Transpose(b);
    CombineIsDots(u, b);
    CombineIsDots(u, s);
    TransposeScaled(b, k);
    hide Scaled, Transpose;
    DotScaled(u, Row0(t), Row0(Transpose(s)), k);
    DotScaled(u, Row1(t), Row1(Transpose(s)), k);
    DotScaled(u, Row2(t), Row2(Transpose(s)), k);
    DotScaled(u, Row3(t), Row3(Transpose(s)), k);
  }

  lemma TransposeScaled(b: Mat4, k: real)
    ensures var s, t := Transpose(Scaled(b, k)), Transpose(b);
      && Row0(s) == Scale4(Row0(t), k) && Row1(s) == Scale4(Row1(t), k)
      && Row2(s) == Scale4(Row2(t), k) && Row3(s) == Scale4(Row3(t), k)
  {
    hide Times;
  }

  lemma InverseRight(m: Mat4)
    requires Det(m) != 0.0
    ensures Mul(m, Inverse(m)) == IDENTITY
  {
    MulAdjugate(m);
    MulScaled(m, Adjugate(m), 1.0 / Det(m));
  }

  /** A right inverse is the inverse, on both sides. */
  lemma InverseUnique(m: Mat4, n: Mat4)
    requires Mul(m, n) == IDENTITY
    ensures Det(m) != 0.0
    ensures n == Inverse(m)
    ensures Mul(n, m) == IDENTITY
  {
    hide Mul, Det, Adjugate, Scaled, Transpose, FromRows;
    DetMul(m, n);
    DetIdentity();
    assert Det(m) != 0.0 && Det(n) != 0.0;
    var p := Inverse(n);
    InverseRight(n);
    // m == m * (n * p) == (m * n) * p == p, so n * m == n * p
    MulAssociative(m, n, p);
    MulIdentity(m);
    MulIdentity(p);
    assert m == p;
    var q := Inverse(m);
    InverseRight(m);
    MulAssociative(n, m, q);
    MulIdentity(n);
    MulIdentity(q);
  }

  /** For a nonzero determinant, `invert` gives a two-sided inverse. */
  lemma InverseBothSides(m: Mat4)
    requires Det(m) != 0.0
    ensures Mul(m, Inverse(m)) == IDENTITY
    ensures Mul(Inverse(m), m) == IDENTITY
  {
    hide Mul, Det, Adjugate, Scaled, Transpose, FromRows;
    InverseRight(m);
    InverseUnique(m, Inverse(m));
  }

  /** The identity fallback is taken exactly for the matrices that have no inverse. */
  lemma FallbackIffNotInvertible(m: Mat4)
    ensures Det(m) == 0.0 <==> !exists n :: Mul(m, n) == IDENTITY
    ensures Det(m) == 0.0 <==> !exists n :: Mul(n, m) == IDENTITY
  {
    hide Mul, Det, Adjugate, Scaled, Transpose, FromRows;
    if Det(m) != 0.0 {
      InverseBothSides(m);
      var n := Inverse(m);
      assert Mul(m, n) == IDENTITY && Mul(n, m) == IDENTITY;
    } else {
      forall n ensures Mul(m, n) != IDENTITY && Mul(n, m) != IDENTITY {
        DetMul(m, n);
        DetMul(n, m);
        DetIdentity();
      }
    }
  }

  /** Inverting twice gives the matrix back exactly when it is invertible. */
  lemma InverseInvolutive(m: Mat4)
    ensures Inverse(Inverse(m)) == m <==> Det(m) != 0.0
  {
    hide Mul, Det, Adjugate, Scaled, Transpose, FromRows;
    DetIdentity();
    MulIdentity(IDENTITY);
    InverseUnique(IDENTITY, IDENTITY);
    if Det(m) != 0.0 {
      InverseBothSides(m);
      InverseUnique(Inverse(m), m);
    }
  }

  lemma InverseOfRegularProduct(a: Mat4, b: Mat4)
    requires Det(a) != 0.0 && Det(b) != 0.0
    ensures Inverse(Mul(a, b)) == Mul(Inverse(b), Inverse(a))
  {
    hide Mul, Det, Adjugate, Scaled, Transpose, FromRows;
    var x, y := Inverse(a), Inverse(b);
    InverseRight(a);
    InverseRight(b);
    // (a * b) * (y * x) == a * ((b * y) * x) == a * x
    MulAssociative(a, b, Mul(y, x));
    MulAssociative(b, y, x);
    MulIdentity(x);
    InverseUnique(Mul(a, b), Mul(y, x));
  }

  /**
   `invert(a * b) == invert(b) * invert(a)` holds exactly when both factors are regular, both are
   singular, or the regular one of the two is the identity.
   */
  lemma InverseOfProduct(a: Mat4, b: Mat4)
    ensures Inverse(Mul(a, b)) == Mul(Inverse(b), Inverse(a))
       <==> || (Det(a) != 0.0 && (Det(b) != 0.0 || a == IDENTITY))
            || (Det(a) == 0.0 && (Det(b) == 0.0 || b == IDENTITY))
  {
    hide Mul, Det, Adjugate, Scaled, Transpose, FromRows;
    DetMul(a, b);
    if Det(a) != 0.0 && Det(b) != 0.0 {
      InverseOfRegularProduct(a, b);
    } else {
      MulIdentity(Inverse(a));
      MulIdentity(Inverse(b));
      if Det(a) != 0.0 { RegularInverseIsIdentity(a); }
      if Det(b) != 0.0 { RegularInverseIsIdentity(b); }
    }
  }

  /** The diagonal matrix with entries p, q, q, q. */
  function Diagonal(p: real, q: real): Mat4 {
    Mat4(p, 0.0, 0.0, 0.0, 0.0, q, 0.0, 0.0, 0.0, 0.0, q, 0.0, 0.0, 0.0, 0.0, q)
  }

  lemma DiagonalDet(p: real, q: real)
    ensures Det(Diagonal(p, q)) == p * (q * q * q)
  {
  }

  lemma StretchThenFlatten(p: real, z: real, q: real)
    requires p != 0.0 && p != 1.0 && z == 0.0 && q == 1.0
    ensures Inverse(Mul(Diagonal(p, q), Diagonal(z, q))) != Mul(Inverse(Diagonal(z, q)), Inverse(Diagonal(p, q)))
  {
    assert Diagonal(p, q).m00 != IDENTITY.m00;
    hide *;
    DiagonalDet(p, q);
    DiagonalDet(z, q);
    InverseOfProduct(Diagonal(p, q), Diagonal(z, q));
  }

  /** Stretching by two, then flattening: the product is singular, so the two sides differ. */
  lemma InverseOfProductFails()
    ensures Inverse(Mul(Diagonal(2.0, 1.0), Diagonal(0.0, 1.0)))
         != Mul(Inverse(Diagonal(0.0, 1.0)), Inverse(Diagonal(2.0, 1.0)))
  {
    hide *;
    StretchThenFlatten(2.0, 0.0, 1.0);
  }

  lemma RegularInverseIsIdentity(m: Mat4)
    requires Det(m) != 0.0
    ensures Inverse(m) == IDENTITY <==> m == IDENTITY
  {
    hide Mul, Det, Adjugate, Scaled, Transpose, FromRows;
    InverseRight(m);
    MulIdentity(m);
    MulIdentity(Inverse(m));
  }

  lemma InverseTranspose(m: Mat4)
    ensures Inverse(Transpose(m)) == Transpose(Inverse(m))
  {
    hide Mul, Det, Adjugate, Scaled, Transpose, FromRows;
    DetTranspose(m);
    TransposeIdentity();
    if Det(m) != 0.0 {
      InverseBothSides(m);
      TransposeMul(Inverse(m), m);
      InverseUnique(Transpose(m), Transpose(Inverse(m)));
    }
  }

  lemma ApplyIdentity(v: Vector4)
    ensures Apply(IDENTITY, v) == v
  {
  }

  /** Undoing a transformation: `invert(m)` takes every image back to its source. */
  lemma InverseUndoes(m: Mat4, v: Vector4)
    requires Det(m) != 0.0
    ensures Apply(Inverse(m), Apply(m, v)) == v
    ensures Apply(m, Apply(Inverse(m), v)) == v
  {
    InverseBothSides(m);
    ApplyMul(Inverse(m), m, v);
    ApplyMul(m, Inverse(m), v);
  }
}
