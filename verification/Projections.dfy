/** The translation and projection matrices of util/Matrix.cpp, and `transform`. */
module Projections {
  import opened Vectors
  import opened Matrices

  function Translation(t: Vector3): Mat4 {
    Mat4(1.0, 0.0, 0.0, t.x,
         0.0, 1.0, 0.0, t.y,
         0.0, 0.0, 1.0, t.z,
         0.0, 0.0, 0.0, 1.0)
  }

  function Frustum(l: real, r: real, b: real, t: real, n: real, f: real): Mat4
    requires l != r && b != t && n != f
  {
    Mat4(2.0 * n / (r - l), 0.0, (r + l) / (r - l), 0.0,
         0.0, 2.0 * n / (t - b), (t + b) / (t - b), 0.0,
         0.0, 0.0, -(f + n) / (f - n), -(2.0 * f * n) / (f - n),
         0.0, 0.0, -1.0, 0.0)
  }

  function Ortho(l: real, r: real, b: real, t: real, n: real, f: real): Mat4
    requires l != r && b != t && n != f
  {
    Mat4(2.0 / (r - l), 0.0, 0.0, -(r + l) / (r - l),
         0.0, 2.0 / (t - b), 0.0, -(t + b) / (t - b),
         0.0, 0.0, -2.0 / (f - n), -(f + n) / (f - n),
         0.0, 0.0, 0.0, 1.0)
  }

  /** A point with coordinates (x, y, z) in homogeneous form. */
  function Point(x: real, y: real, z: real): Vector4 {
    Vector4(x, y, z, 1.0)
  }

  /** The clip volume of section 2.13 of the OpenGL ES 2.0 specification. */
  ghost predicate InClipVolume(v: Vector4) {
    -v.w <= v.x <= v.w && -v.w <= v.y <= v.w && -v.w <= v.z <= v.w
  }

  /** Between the near and the far plane, inside the pyramid from the eye through the near window. */
  ghost predicate InViewFrustum(l: real, r: real, b: real, t: real, n: real, f: real, x: real, y: real, z: real) {
    && n <= -z <= f
    && l * -z <= x * n <= r * -z
    && b * -z <= y * n <= t * -z
  }

  /** In the closed interval with ends a and b, whichever is the smaller. */
  ghost predicate Between(a: real, b: real, x: real) {
    a <= x <= b || b <= x <= a
  }

  lemma TranslationMoves(t: Vector3, x: real, y: real, z: real)
    ensures Apply(Translation(t), Point(x, y, z)) == Point(x + t.x, y + t.y, z + t.z)
  {
  }

  /** A translation is undone by the opposite translation, and that is what `invert` gives. */
  lemma TranslationInverse(t: Vector3)
    ensures Inverse(Translation(t)) == Translation(Vector3(-t.x, -t.y, -t.z))
  {
    InverseUnique(Translation(t), Translation(Vector3(-t.x, -t.y, -t.z)));
  }

  // ----- transform

  /** `transform`: the image divided by its four-dimensional length, without its last coordinate. */
  function Transform(m: Mat4, p: Vector4, length: real): Vector3
    requires length != 0.0
  {
    var v := Apply(m, p);
    Vector3(v.x / length, v.y / length, v.z / length)
  }

  function PerspectiveDivide(v: Vector4): Vector3
    requires v.w != 0.0
  {
    Vector3(v.x / v.w, v.y / v.w, v.z / v.w)
  }

  /**
   `transform` divides by the length where a projection divides by w.  The two agree exactly when
   the first three coordinates of the image vanish.
   */
  lemma TransformIsNotDivision(m: Mat4, p: Vector4, length: real)
    requires IsLength4(Apply(m, p), length) && Apply(m, p).w != 0.0
    ensures length > 0.0
    ensures Transform(m, p, length) == PerspectiveDivide(Apply(m, p))
       <==> Apply(m, p).x == 0.0 && Apply(m, p).y == 0.0 && Apply(m, p).z == 0.0
  {
    var v := Apply(m, p);
    hide Apply;
    LengthBeyondW(v, length);
    if length == v.w {
      SquaresVanish(v, length);
    } else {
      QuotientsDiffer(v.x, length, v.w);
      QuotientsDiffer(v.y, length, v.w);
      QuotientsDiffer(v.z, length, v.w);
    }
  }

  /** The point (3, 0, 0, 4), whose length is 5: `transform` gives 3/5 where division gives 3/4. */
  lemma TransformFails(p: Vector4, length: real)
    requires p == Vector4(3.0, 0.0, 0.0, 4.0) && length == 5.0
    ensures IsLength4(Apply(IDENTITY, p), length)
    ensures Transform(IDENTITY, p, length) == Vector3(0.6, 0.0, 0.0)
    ensures PerspectiveDivide(p) == Vector3(0.75, 0.0, 0.0)
  {
    hide Apply;
    ApplyIdentity(p);
  }

  lemma LengthBeyondW(v: Vector4, length: real)
    requires IsLength4(v, length) && v.w != 0.0
    ensures length > 0.0
  {
    SquareSign(v.x, v.x * v.x);
    SquareSign(v.y, v.y * v.y);
    SquareSign(v.z, v.z * v.z);
    SquareSign(v.w, v.w * v.w);
    SquareSign(length, length * length);
  }

  lemma SquaresVanish(v: Vector4, length: real)
    requires IsLength4(v, length) && length == v.w
    ensures v.x == 0.0 && v.y == 0.0 && v.z == 0.0
  {
    SquareSign(v.x, v.x * v.x);
    SquareSign(v.y, v.y * v.y);
    SquareSign(v.z, v.z * v.z);
    assert length * length == v.w * v.w;
  }

  lemma QuotientsDiffer(a: real, d: real, e: real)
    requires d != 0.0 && e != 0.0 && d != e
    ensures a / d == a / e <==> a == 0.0
  {
    if a / d == a / e {
      var q := a / d;
      assert q * d == a && q * e == a;
      assert q * (d - e) == 0.0;
    }
  }

  // ----- frustum

  lemma ScaleOrder(a: real, b: real, d: real)
    requires d > 0.0
    ensures a <= b <==> a * d <= b * d
  {
    if a <= b {
      assert (b - a) * d >= 0.0;
    } else {
      assert (a - b) * d > 0.0;
    }
  }

  /** One sideways coordinate: X is the image of x, -z is w, and (l, r) is the near window. */
  lemma FrustumSide(l: real, r: real, n: real, x: real, z: real, image: real)
    requires l < r
    requires image == 2.0 * n / (r - l) * x + (r + l) / (r - l) * z
    ensures -(-z) <= image <= -z <==> l * -z <= x * n <= r * -z
  {
    var d := r - l;
    ClearDenominator(2.0 * n, r + l, d, x, z, image);
    ScaleOrder(image, -z, d);
    ScaleOrder(z, image, d);
    assert -z * d == -(z * r) + z * l && z * d == z * r - z * l;
  }

  lemma ClearDenominator(p: real, q: real, d: real, x: real, z: real, image: real)
    requires d != 0.0 && image == p / d * x + q / d * z
    ensures image * d == p * x + q * z
  {
    var a, b := p / d, q / d;
    assert a * d == p && b * d == q;
    assert (a * x + b * z) * d == (a * d) * x + (b * d) * z;
  }

  /** The depth coordinate: image and w agree at the far plane and are opposite at the near plane. */
  lemma FrustumDepth(n: real, f: real, z: real, image: real)
    requires 0.0 < n < f
    requires image == -(f + n) / (f - n) * z + -(2.0 * f * n) / (f - n) * 1.0
    ensures -(-z) <= image <= -z <==> n <= -z <= f
  {
    var d := f - n;
    ClearDenominator(-(f + n), -(2.0 * f * n), d, z, 1.0, image);
    ScaleOrder(image, -z, d);
    ScaleOrder(z, image, d);
    assert -z * d == -(z * f) + z * n && z * d == z * f - z * n;
    ScaleOrder(-z, f, n);
    ScaleOrder(n, -z, f);
  }

  /** A point is seen exactly when it lies in the view frustum, whatever its depth. */
  lemma FrustumClips(l: real, r: real, b: real, t: real, n: real, f: real, x: real, y: real, z: real)
    requires l < r && b < t && 0.0 < n < f
    ensures InViewFrustum(l, r, b, t, n, f, x, y, z) <==> InClipVolume(Apply(Frustum(l, r, b, t, n, f), Point(x, y, z)))
  {
    FrustumImage(l, r, b, t, n, f, x, y, z);
    var v := Apply(Frustum(l, r, b, t, n, f), Point(x, y, z));
    hide Apply, Frustum;
    FrustumSide(l, r, n, x, z, v.x);
    FrustumSide(b, t, n, y, z, v.y);
    FrustumDepth(n, f, z, v.z);
  }

  /** Which way round: each of the six planes of the frustum goes to its own side of the clip volume. */
  lemma FrustumPlanes(l: real, r: real, b: real, t: real, n: real, f: real, x: real, y: real, z: real)
    requires l != r && b != t && n != f
    ensures var v := Apply(Frustum(l, r, b, t, n, f), Point(x, y, z));
      && v.w == -z
      && (x * n == l * -z ==> v.x == -v.w) && (x * n == r * -z ==> v.x == v.w)
      && (y * n == b * -z ==> v.y == -v.w) && (y * n == t * -z ==> v.y == v.w)
      && (-z == n ==> v.z == -v.w) && (-z == f ==> v.z == v.w)
  {
    FrustumImage(l, r, b, t, n, f, x, y, z);
    var v := Apply(Frustum(l, r, b, t, n, f), Point(x, y, z));
    hide Apply, Frustum;
    SidePlanes(l, r, n, x, z, v.x);
    SidePlanes(b, t, n, y, z, v.y);
    DepthPlanes(n, f, z, v.z);
  }

  lemma SidePlanes(l: real, r: real, n: real, x: real, z: real, image: real)
    requires l != r
    requires image == 2.0 * n / (r - l) * x + (r + l) / (r - l) * z
    ensures x * n == l * -z ==> image == z
    ensures x * n == r * -z ==> image == -z
  {
    var d := r - l;
    ClearDenominator(2.0 * n, r + l, d, x, z, image);
    assert image * d == 2.0 * (x * n) + (r * z + l * z);
    CancelFactor(image, z, d);
    CancelFactor(image, -z, d);
  }

  lemma DepthPlanes(n: real, f: real, z: real, image: real)
    requires n != f
    requires image == -(f + n) / (f - n) * z + -(2.0 * f * n) / (f - n) * 1.0
    ensures -z == n ==> image == z
    ensures -z == f ==> image == -z
  {
    var d := f - n;
    ClearDenominator(-(f + n), -(2.0 * f * n), d, z, 1.0, image);
    CancelFactor(image, z, d);
    CancelFactor(image, -z, d);
  }

  lemma CancelFactor(a: real, b: real, d: real)
    requires d != 0.0
    ensures a * d == b * d ==> a == b
  {
    if a * d == b * d {
      assert (a - b) * d == 0.0;
    }
  }

  lemma FrustumImage(l: real, r: real, b: real, t: real, n: real, f: real, x: real, y: real, z: real)
    requires l != r && b != t && n != f
    ensures Apply(Frustum(l, r, b, t, n, f), Point(x, y, z))
         == Vector4(2.0 * n / (r - l) * x + (r + l) / (r - l) * z, 2.0 * n / (t - b) * y + (t + b) / (t - b) * z,
                    -(f + n) / (f - n) * z + -(2.0 * f * n) / (f - n) * 1.0, -z)
  {
  }

  /** The frustum matrix can be inverted exactly when neither plane passes through the eye. */
  lemma FrustumInvertible(l: real, r: real, b: real, t: real, n: real, f: real)
    requires l != r && b != t && n != f
    ensures Det(Frustum(l, r, b, t, n, f)) != 0.0 <==> n != 0.0 && f != 0.0
  {
    var m := Frustum(l, r, b, t, n, f);
    FrustumDet(m.m00, m.m02, m.m11, m.m12, m.m22, m.m23);
    QuotientNonzero(2.0 * n, r - l);
    QuotientNonzero(2.0 * n, t - b);
    QuotientNonzero(-(2.0 * f * n), f - n);
    ProductNonzero(m.m00, m.m11, m.m23);
    ProductNonzero(2.0, f, n);
  }

  lemma FrustumDet(p: real, a: real, q: real, b: real, c: real, d: real)
    ensures Det(Mat4(p, 0.0, a, 0.0, 0.0, q, b, 0.0, 0.0, 0.0, c, d, 0.0, 0.0, -1.0, 0.0)) == p * q * d
  {
  }

  lemma QuotientNonzero(a: real, d: real)
    requires d != 0.0
    ensures a / d != 0.0 <==> a != 0.0
  {
    assert (a / d) * d == a;
  }

  lemma ProductNonzero(a: real, b: real, c: real)
    ensures a * b * c != 0.0 <==> a != 0.0 && b != 0.0 && c != 0.0
  {
    if a != 0.0 && b != 0.0 {
      PairNonzero(a, b, a * b);
      if c != 0.0 {
        PairNonzero(a * b, c, a * b * c);
      }
    }
  }

  lemma PairNonzero(a: real, b: real, m: real)
    requires a != 0.0 && b != 0.0 && m == a * b
    ensures m != 0.0
  {
    assert m / b == a;
  }

  // ----- ortho

  lemma OrthoSide(l: real, r: real, x: real, image: real)
    requires l != r
    requires image == 2.0 / (r - l) * x + -(r + l) / (r - l) * 1.0
    ensures -1.0 <= image <= 1.0 <==> Between(l, r, x)
    ensures x == l ==> image == -1.0
    ensures x == r ==> image == 1.0
  {
    var d := r - l;
    ClearDenominator(2.0, -(r + l), d, x, 1.0, image);
    assert image * d == 2.0 * x - r - l;
    if d > 0.0 {
      ScaleOrder(image, 1.0, d);
      ScaleOrder(-1.0, image, d);
    } else {
      ScaleOrder(image, 1.0, -d);
      ScaleOrder(-1.0, image, -d);
    }
    CancelDenominator(image, d);
  }

  lemma CancelDenominator(image: real, d: real)
    requires d != 0.0
    ensures image * d == d ==> image == 1.0
    ensures image * d == -d ==> image == -1.0
  {
    if image * d == d { assert (image - 1.0) * d == 0.0; }
    if image * d == -d { assert (image + 1.0) * d == 0.0; }
  }

  lemma OrthoImage(l: real, r: real, b: real, t: real, n: real, f: real, x: real, y: real, z: real)
    requires l != r && b != t && n != f
    ensures Apply(Ortho(l, r, b, t, n, f), Point(x, y, z))
         == Point(2.0 / (r - l) * x + -(r + l) / (r - l) * 1.0, 2.0 / (t - b) * y + -(t + b) / (t - b) * 1.0,
                  -2.0 / (f - n) * z + -(f + n) / (f - n) * 1.0)
  {
  }

  /** A point is seen exactly when it lies in the box, with the planes given in either order. */
  lemma OrthoClips(l: real, r: real, b: real, t: real, n: real, f: real, x: real, y: real, z: real)
    requires l != r && b != t && n != f
    ensures Between(l, r, x) && Between(b, t, y) && Between(n, f, -z)
       <==> InClipVolume(Apply(Ortho(l, r, b, t, n, f), Point(x, y, z)))
  {
    OrthoImage(l, r, b, t, n, f, x, y, z);
    var v := Apply(Ortho(l, r, b, t, n, f), Point(x, y, z));
    hide Apply, Ortho;
    OrthoSide(l, r, x, v.x);
    OrthoSide(b, t, y, v.y);
    OppositeSign(2.0, f - n, z);
    OrthoSide(n, f, -z, v.z);
  }

  /** Which way round: each face of the box goes to its own side of the clip volume. */
  lemma OrthoPlanes(l: real, r: real, b: real, t: real, n: real, f: real, x: real, y: real, z: real)
    requires l != r && b != t && n != f
    ensures var v := Apply(Ortho(l, r, b, t, n, f), Point(x, y, z));
      && v.w == 1.0
      && (x == l ==> v.x == -1.0) && (x == r ==> v.x == 1.0)
      && (y == b ==> v.y == -1.0) && (y == t ==> v.y == 1.0)
      && (-z == n ==> v.z == -1.0) && (-z == f ==> v.z == 1.0)
  {
    OrthoImage(l, r, b, t, n, f, x, y, z);
    var v := Apply(Ortho(l, r, b, t, n, f), Point(x, y, z));
    hide Apply, Ortho;
    OrthoSide(l, r, x, v.x);
    OrthoSide(b, t, y, v.y);
    OppositeSign(2.0, f - n, z);
    OrthoSide(n, f, -z, v.z);
  }

  lemma OppositeSign(a: real, d: real, z: real)
    requires d != 0.0
    ensures -a / d * z == a / d * -z
  {
    assert -a / d == -(a / d);
  }
}
