/** The geometry of `CreateSphereGeometry`: on the sphere, facing outward, degenerate only at the poles. */
module SphereProperties {
  import opened Vectors
  import opened SphereMesh
  import opened SphereTopology

  ghost predicate OnCircleAt(sine: nat -> real, cosine: nat -> real, m: nat) {
    sine(m) * sine(m) + cosine(m) * cosine(m) == 1.0
  }

  /** Every normal has length one and every position lies on the sphere. */
  lemma OnSphere(n: nat, radius: real, sine: nat -> real, cosine: nat -> real,
                 positions: seq<Vector3>, normals: seq<Vector3>, v: nat)
    requires Filled(n, radius, sine, cosine, positions, normals, VertexCount(n)) && v < VertexCount(n)
    requires OnCircleAt(sine, cosine, GridOf(n, v).row) && OnCircleAt(sine, cosine, GridOf(n, v).col)
    ensures Dot3(normals[v], normals[v]) == 1.0
    ensures Dot3(positions[v], positions[v]) == radius * radius
  {
    var g := GridOf(n, v);
    var d := Direction(sine, cosine, g);
    assert normals[v] == d && positions[v] == Scale3(d, radius);
    hide Filled, GridOf, VertexCount, Dot3, Scale3, Spherical;
    UnitDirection(sine(g.row), cosine(g.row), sine(g.col), cosine(g.col), radius);
  }

  lemma UnitDirection(s: real, c: real, p: real, q: real, k: real)
    requires s * s + c * c == 1.0 && p * p + q * q == 1.0
    ensures Dot3(Spherical(s, c, p, q), Spherical(s, c, p, q)) == 1.0
    ensures Dot3(Scale3(Spherical(s, c, p, q), k), Scale3(Spherical(s, c, p, q), k)) == k * k
  {
    assert (s * p) * (s * p) + c * c + (s * q) * (s * q) == s * s * (p * p + q * q) + c * c;
    ScaledLength(Spherical(s, c, p, q), k);
  }

  lemma ScaledLength(v: Vector3, k: real)
    ensures Dot3(Scale3(v, k), Scale3(v, k)) == Dot3(v, v) * (k * k)
  {
  }

  /** Which way round: the first parallel is the pole (0, 1, 0), and the first slice runs from there through +z. */
  lemma PoleAndFirstSlice(n: nat, radius: real, sine: nat -> real, cosine: nat -> real,
                          positions: seq<Vector3>, normals: seq<Vector3>, g: Grid)
    requires Filled(n, radius, sine, cosine, positions, normals, VertexCount(n)) && OnGrid(n, g)
    requires sine(0) == 0.0 && cosine(0) == 1.0
    ensures Number(n, g) < |positions| == |normals|
    ensures g.row == 0 ==>
              normals[Number(n, g)] == Vector3(0.0, 1.0, 0.0) && positions[Number(n, g)] == Vector3(0.0, radius, 0.0)
    ensures g.col == 0 ==>
              && normals[Number(n, g)] == Vector3(0.0, cosine(g.row), sine(g.row))
              && positions[Number(n, g)] == Vector3(0.0, cosine(g.row) * radius, sine(g.row) * radius)
  {
    NumberingBijective(n);
    hide Number, GridOf, VertexCount;
    assert GridOf(n, Number(n, g)) == g;
    SphericalAxes(sine(g.row), cosine(g.row), sine(g.col), cosine(g.col));
    hide Spherical;
  }

  lemma SphericalAxes(s: real, c: real, p: real, q: real)
    ensures s == 0.0 ==> Spherical(s, c, p, q) == Vector3(0.0, c, 0.0)
    ensures p == 0.0 && q == 1.0 ==> Spherical(s, c, p, q) == Vector3(0.0, c, s)
  {
  }

  /** The component of a triangle's normal, by its winding, along the direction of its first vertex. */
  function Facing(a: Vector3, b: Vector3, c: Vector3, towards: Vector3): real {
    Dot3(Cross3(Sub3(b, a), Sub3(c, a)), towards)
  }

  /** The sine of the difference of two angles. */
  function SineOfDifference(s: real, c: real, s': real, c': real): real {
    s' * c - c' * s
  }

  /** Consecutive multiples of the angle step differ by an angle whose sine is h. */
  ghost predicate StepAt(sine: nat -> real, cosine: nat -> real, h: real, m: nat) {
    SineOfDifference(sine(m), cosine(m), sine(m + 1), cosine(m + 1)) == h
  }

  lemma FacingIsTriple(a: Vector3, b: Vector3, c: Vector3)
    ensures Facing(a, b, c, a) == Dot3(a, Cross3(b, c))
  {
  }

  /** The three vertices lie in one plane, so all give the same component. */
  lemma FacingFirstSecond(a: Vector3, b: Vector3, c: Vector3)
    ensures Facing(a, b, c, b) == Facing(a, b, c, a)
  {
    assert Dot3(Cross3(Sub3(b, a), Sub3(c, a)), Sub3(b, a)) == 0.0;
  }

  lemma FacingFirstThird(a: Vector3, b: Vector3, c: Vector3)
    ensures Facing(a, b, c, c) == Facing(a, b, c, a)
  {
    assert Dot3(Cross3(Sub3(b, a), Sub3(c, a)), Sub3(c, a)) == 0.0;
  }

  lemma SubScaled(a: Vector3, b: Vector3, k: real)
    ensures Sub3(Scale3(b, k), Scale3(a, k)) == Scale3(Sub3(b, a), k)
  {
  }

  lemma MinorScaled(a: real, b: real, c: real, d: real, k: real, m: real)
    requires m == k * k
    ensures (a * k) * (b * k) - (c * k) * (d * k) == (a * b - c * d) * m
  {
    assert (a * k) * (b * k) == (a * b) * m;
    assert (c * k) * (d * k) == (c * d) * m;
  }

  lemma CrossScaled(u: Vector3, v: Vector3, k: real, m: real)
    requires m == k * k
    ensures Cross3(Scale3(u, k), Scale3(v, k)) == Scale3(Cross3(u, v), m)
  {
    MinorScaled(u.y, v.z, u.z, v.y, k, m);
    MinorScaled(u.z, v.x, u.x, v.z, k, m);
    MinorScaled(u.x, v.y, u.y, v.x, k, m);
  }

  lemma DotScaled3(u: Vector3, v: Vector3, k: real)
    ensures Dot3(Scale3(u, k), v) == Dot3(u, v) * k
  {
  }

  lemma FacingScaled(a: Vector3, b: Vector3, c: Vector3, towards: Vector3, k: real, m: real)
    requires m == k * k
    ensures Facing(Scale3(a, k), Scale3(b, k), Scale3(c, k), towards) == Facing(a, b, c, towards) * m
  {
    hide Scale3, Cross3, Sub3, Dot3;
    SubScaled(a, b, k);
    SubScaled(a, c, k);
    CrossScaled(Sub3(b, a), Sub3(c, a), k, m);
    DotScaled3(Cross3(Sub3(b, a), Sub3(c, a)), towards, m);
  }

  lemma FacingAlong(a: Vector3, b: Vector3, c: Vector3, k: real, towards: Vector3)
    requires towards == a || towards == b || towards == c
    ensures Facing(Scale3(a, k), Scale3(b, k), Scale3(c, k), towards) == Dot3(a, Cross3(b, c)) * (k * k)
  {
    hide Scale3, Cross3, Sub3, Dot3, Facing;
    FacingScaled(a, b, c, towards, k, k * k);
    FacingFirstSecond(a, b, c);
    FacingFirstThird(a, b, c);
    FacingIsTriple(a, b, c);
  }

  function Product3(x: real, y: real, z: real): real {
    x * (y * z)
  }

  lemma LowerTriple(s: real, c: real, s': real, c': real, p: real, q: real, p': real, q': real)
    ensures Dot3(Spherical(s, c, p, q), Cross3(Spherical(s', c', p, q), Spherical(s', c', p', q')))
         == Product3(s', SineOfDifference(p, q, p', q'), SineOfDifference(s, c, s', c'))
  {
    hide Dot3, Cross3, Spherical, Product3;
    LowerExpanded(s, c, s', c', p, q, p', q');
  }

  lemma LowerExpanded(s: real, c: real, s': real, c': real, p: real, q: real, p': real, q': real)
    ensures Dot3(Spherical(s, c, p, q), Cross3(Spherical(s', c', p, q), Spherical(s', c', p', q')))
         == Product3(s', p' * q - q' * p, s' * c - c' * s)
  {
  }

  lemma UpperTriple(s: real, c: real, s': real, c': real, p: real, q: real, p': real, q': real)
    ensures Dot3(Spherical(s, c, p, q), Cross3(Spherical(s', c', p', q'), Spherical(s, c, p', q')))
         == Product3(s, SineOfDifference(p, q, p', q'), SineOfDifference(s, c, s', c'))
  {
    hide Dot3, Cross3, Spherical, Product3;
    UpperExpanded(s, c, s', c', p, q, p', q');
  }

  lemma UpperExpanded(s: real, c: real, s': real, c': real, p: real, q: real, p': real, q': real)
    ensures Dot3(Spherical(s, c, p, q), Cross3(Spherical(s', c', p', q'), Spherical(s, c, p', q')))
         == Product3(s, p' * q - q' * p, s' * c - c' * s)
  {
  }

  /** x * h^2 * k^2 */
  function FaceValue(x: real, h: real, k: real): real {
    Product3(x, h, h) * (k * k)
  }

  lemma FaceValueSign(x: real, h: real, k: real)
    ensures FaceValue(x, h, k) > 0.0 <==> x > 0.0 && h != 0.0 && k != 0.0
    ensures x >= 0.0 ==> FaceValue(x, h, k) >= 0.0
  {
    var m, n := h * h, k * k;
    SquareSign(h, m);
    SquareSign(k, n);
    SignOfProduct(x, m, n);
    hide Product3;
    FaceValueIs(x, h, k, m, n);
  }

  lemma FaceValueIs(x: real, h: real, k: real, m: real, n: real)
    requires m == h * h && n == k * k
    ensures FaceValue(x, h, k) == (x * m) * n
  {
    assert Product3(x, h, h) == x * m;
  }

  lemma SignOfProduct(x: real, m: real, n: real)
    requires m >= 0.0 && n >= 0.0
    ensures (x * m) * n > 0.0 <==> x > 0.0 && m > 0.0 && n > 0.0
    ensures x >= 0.0 ==> (x * m) * n >= 0.0
  {
    var y := x * m;
    if x <= 0.0 {
      assert y <= 0.0;
    } else {
      assert y >= 0.0;
      if m > 0.0 {
        assert y > 0.0;
      }
    }
  }

  function PositionAt(sine: nat -> real, cosine: nat -> real, radius: real, g: Grid): Vector3 {
    Scale3(Direction(sine, cosine, g), radius)
  }

  lemma CellTriples(sine: nat -> real, cosine: nat -> real, h: real, i: nat, j: nat)
    requires StepAt(sine, cosine, h, i) && StepAt(sine, cosine, h, j)
    ensures var a, b := Direction(sine, cosine, Grid(i, j)), Direction(sine, cosine, Grid(i + 1, j));
      var c, d := Direction(sine, cosine, Grid(i + 1, j + 1)), Direction(sine, cosine, Grid(i, j + 1));
      && Dot3(a, Cross3(b, c)) == Product3(sine(i + 1), h, h)
      && Dot3(a, Cross3(c, d)) == Product3(sine(i), h, h)
  {
    hide Dot3, Cross3, Product3, Spherical, SineOfDifference;
    LowerTriple(sine(i), cosine(i), sine(i + 1), cosine(i + 1), sine(j), cosine(j), sine(j + 1), cosine(j + 1));
    UpperTriple(sine(i), cosine(i), sine(i + 1), cosine(i + 1), sine(j), cosine(j), sine(j + 1), cosine(j + 1));
  }

  lemma TriangleCorners(n: nat, k: nat) returns (i: nat, j: nat)
    requires k % 3 == 0 && k < IndexCount(n)
    ensures k + 2 < IndexCount(n) && i < n && j < n && CornerAt(n, k) == Grid(i, j)
    ensures || (CornerAt(n, k + 1) == Grid(i + 1, j) && CornerAt(n, k + 2) == Grid(i + 1, j + 1))
            || (CornerAt(n, k + 1) == Grid(i + 1, j + 1) && CornerAt(n, k + 2) == Grid(i, j + 1))
  {
    hide CornerAt, IndexCount, EdgeAt, After;
    var c;
    i, j, c := PlaceInCell(n, k);
    var t := i * n + j;
    assert c == 0 || c == 3;
    CellEdgeAt(n, i, j, t, c);
    CellEdgeAt(n, i, j, t, c + 1);
    CellEdgeAt(n, i, j, t, c + 2);
  }

  /** Two of the corners of the triangle at place k lie on a parallel that is a single point. */
  ghost predicate TwoOnPole(n: nat, sine: nat -> real, k: nat)
    requires n > 0
  {
    exists l: nat, m: nat :: k <= l < m < k + 3
      && CornerAt(n, l).row == CornerAt(n, m).row && sine(CornerAt(n, l).row) == 0.0
  }

  lemma PairRow(n: nat, sine: nat -> real, k: nat)
    requires k % 3 == 0 && k < IndexCount(n)
    ensures TwoOnPole(n, sine, k) <==> sine(CornerAt(n, k + 2).row) == 0.0
  {
    hide CornerAt, IndexCount;
    var i, j := TriangleCorners(n, k);
    if CornerAt(n, k + 1) == Grid(i + 1, j) {
      assert CornerAt(n, k + 1).row == CornerAt(n, k + 2).row;
    } else {
      assert CornerAt(n, k).row == CornerAt(n, k + 2).row;
    }
  }

  lemma VertexOf(n: nat, radius: real, sine: nat -> real, cosine: nat -> real,
                 positions: seq<Vector3>, normals: seq<Vector3>, k: nat)
    requires Filled(n, radius, sine, cosine, positions, normals, VertexCount(n)) && k < IndexCount(n)
    ensures IndexAt(n, k) < |positions| == |normals|
    ensures positions[IndexAt(n, k)] == PositionAt(sine, cosine, radius, CornerAt(n, k))
    ensures normals[IndexAt(n, k)] == Direction(sine, cosine, CornerAt(n, k))
  {
    CornerOnGrid(n, k);
    NumberingBijective(n);
    hide CornerAt, GridOf, Number, Direction, VertexCount, IndexCount;
  }

  lemma DirectionsTriple(n: nat, h: real, sine: nat -> real, cosine: nat -> real, k: nat)
    requires forall m: nat :: m < n ==> StepAt(sine, cosine, h, m)
    requires k % 3 == 0 && k < IndexCount(n)
    ensures Dot3(Direction(sine, cosine, CornerAt(n, k)),
                 Cross3(Direction(sine, cosine, CornerAt(n, k + 1)), Direction(sine, cosine, CornerAt(n, k + 2))))
         == Product3(sine(CornerAt(n, k + 2).row), h, h)
  {
    hide CornerAt, IndexCount, Direction, Dot3, Cross3, Product3;
    var i, j := TriangleCorners(n, k);
    CellTriples(sine, cosine, h, i, j);
  }

  /**
   For every slice count, each triangle turns its front outward: along the normal of any of its
   vertices, the cross product of its edges is sin(row) * h^2 * radius^2, for the parallel that
   holds two of the vertices.
   */
  lemma TrianglesFaceOut(n: nat, radius: real, h: real, sine: nat -> real, cosine: nat -> real,
                         positions: seq<Vector3>, normals: seq<Vector3>, k: nat, l: nat)
    requires Filled(n, radius, sine, cosine, positions, normals, VertexCount(n))
    requires forall m: nat :: m < n ==> StepAt(sine, cosine, h, m)
    requires k % 3 == 0 && k < IndexCount(n) && k <= l < k + 3
    ensures k + 2 < IndexCount(n) && IndexAt(n, l) < |positions| == |normals|
    ensures IndexAt(n, k) < |positions| && IndexAt(n, k + 1) < |positions| && IndexAt(n, k + 2) < |positions|
    ensures Facing(positions[IndexAt(n, k)], positions[IndexAt(n, k + 1)], positions[IndexAt(n, k + 2)],
                   normals[IndexAt(n, l)])
         == FaceValue(sine(CornerAt(n, k + 2).row), h, radius)
  {
    hide CornerAt, Filled, IndexAt, IndexCount, Facing, Direction, Dot3, Cross3, Scale3, Product3, StepAt;
    var i, j := TriangleCorners(n, k);
    VertexOf(n, radius, sine, cosine, positions, normals, k);
    VertexOf(n, radius, sine, cosine, positions, normals, k + 1);
    VertexOf(n, radius, sine, cosine, positions, normals, k + 2);
    DirectionsTriple(n, h, sine, cosine, k);
    FacingAlong(Direction(sine, cosine, CornerAt(n, k)), Direction(sine, cosine, CornerAt(n, k + 1)),
                Direction(sine, cosine, CornerAt(n, k + 2)), radius, Direction(sine, cosine, CornerAt(n, l)));
  }

  /** The same about the stored buffer, for each triangle whose three numbers fit 16 bits. */
  lemma StoredTrianglesFaceOut(n: nat, radius: real, h: real, sine: nat -> real, cosine: nat -> real,
                               positions: seq<Vector3>, normals: seq<Vector3>, s: seq<int>, k: nat, l: nat)
    requires Filled(n, radius, sine, cosine, positions, normals, VertexCount(n)) && Pushed(n, s, IndexCount(n))
    requires forall m: nat :: m < n ==> StepAt(sine, cosine, h, m)
    requires k % 3 == 0 && k < |s| && k <= l < k + 3
    requires forall m: nat :: k <= m < k + 3 ==> U16(IndexAt(n, m)) == IndexAt(n, m)
    ensures k + 2 < |s| && 0 <= s[l] < |positions| == |normals|
    ensures 0 <= s[k] < |positions| && 0 <= s[k + 1] < |positions| && 0 <= s[k + 2] < |positions|
    ensures Facing(positions[s[k]], positions[s[k + 1]], positions[s[k + 2]], normals[s[l]])
         == FaceValue(sine(CornerAt(n, k + 2).row), h, radius)
  {
    hide CornerAt, Filled, IndexAt, IndexCount, Facing, FaceValue, U16, StepAt;
    TrianglesFaceOut(n, radius, h, sine, cosine, positions, normals, k, l);
    assert U16(IndexAt(n, k)) == IndexAt(n, k) && U16(IndexAt(n, k + 1)) == IndexAt(n, k + 1);
    assert U16(IndexAt(n, k + 2)) == IndexAt(n, k + 2) && U16(IndexAt(n, l)) == IndexAt(n, l);
  }

  /** The cross product of the edges of the triangle at place k. */
  function FaceNormal(n: nat, positions: seq<Vector3>, k: nat): Vector3
    requires n > 0
    requires IndexAt(n, k) < |positions| && IndexAt(n, k + 1) < |positions| && IndexAt(n, k + 2) < |positions|
  {
    Cross3(Sub3(positions[IndexAt(n, k + 1)], positions[IndexAt(n, k)]),
           Sub3(positions[IndexAt(n, k + 2)], positions[IndexAt(n, k)]))
  }

  /** Where the sine vanishes, the whole parallel is one point. */
  lemma PoleIsOnePoint(sine: nat -> real, cosine: nat -> real, radius: real, g: Grid, g': Grid)
    requires g.row == g'.row && sine(g.row) == 0.0
    ensures PositionAt(sine, cosine, radius, g) == PositionAt(sine, cosine, radius, g')
  {
    FlatSpherical(sine(g.row), cosine(g.row), sine(g.col), cosine(g.col), sine(g'.col), cosine(g'.col));
  }

  lemma FlatSpherical(s: real, c: real, p: real, q: real, p': real, q': real)
    requires s == 0.0
    ensures Spherical(s, c, p, q) == Spherical(s, c, p', q')
  {
  }

  lemma FlatTriangle(a: Vector3, b: Vector3, c: Vector3)
    requires b == c || a == c
    ensures Cross3(Sub3(b, a), Sub3(c, a)) == Vector3(0.0, 0.0, 0.0)
  {
    var u := Sub3(c, a);
    assert Cross3(u, u) == Vector3(0.0, 0.0, 0.0);
  }

  lemma DotZero(v: Vector3)
    ensures Dot3(Vector3(0.0, 0.0, 0.0), v) == 0.0
  {
  }

  /**
   For every slice count, with the sines of a half turn: a triangle is degenerate exactly when two of
   its vertices lie on a pole, and otherwise its front faces outward at all three vertices.
   */
  lemma DegenerateIffTwoOnPole(n: nat, radius: real, h: real, sine: nat -> real, cosine: nat -> real,
                               positions: seq<Vector3>, normals: seq<Vector3>, k: nat)
    requires Filled(n, radius, sine, cosine, positions, normals, VertexCount(n)) && radius != 0.0 && h != 0.0
    requires forall m: nat :: m < n ==> StepAt(sine, cosine, h, m)
    requires forall r: nat :: r <= Parallels(n) ==> sine(r) >= 0.0
    requires k % 3 == 0 && k < IndexCount(n)
    ensures k + 2 < IndexCount(n)
    ensures forall l: nat :: k <= l < k + 3 ==> IndexAt(n, l) < |positions| == |normals|
    ensures FaceNormal(n, positions, k) == Vector3(0.0, 0.0, 0.0) <==> TwoOnPole(n, sine, k)
    ensures !TwoOnPole(n, sine, k) ==>
              forall l: nat :: k <= l < k + 3 ==> Dot3(FaceNormal(n, positions, k), normals[IndexAt(n, l)]) > 0.0
  {
    assert n > 0;
    hide CornerAt, Filled, IndexAt, IndexCount, StepAt, Dot3, Cross3, Sub3, FaceValue, TwoOnPole, PositionAt;
    TrianglesFaceOut(n, radius, h, sine, cosine, positions, normals, k, k);
    var row := CornerAt(n, k + 2).row;
    PairRow(n, sine, k);
    forall l: nat | k <= l < k + 3
      ensures IndexAt(n, l) < |positions| == |normals|
      ensures Facing(positions[IndexAt(n, k)], positions[IndexAt(n, k + 1)], positions[IndexAt(n, k + 2)],
                     normals[IndexAt(n, l)]) == FaceValue(sine(row), h, radius) {
      TrianglesFaceOut(n, radius, h, sine, cosine, positions, normals, k, l);
    }
    FaceValueSign(sine(row), h, radius);
    if sine(row) == 0.0 {
      PoleIsFlat(n, radius, sine, cosine, positions, normals, k);
    } else {
      CornerOnGrid(n, k + 2);
      DotZero(normals[IndexAt(n, k)]);
    }
  }

  lemma PoleIsFlat(n: nat, radius: real, sine: nat -> real, cosine: nat -> real,
                   positions: seq<Vector3>, normals: seq<Vector3>, k: nat)
    requires Filled(n, radius, sine, cosine, positions, normals, VertexCount(n))
    requires k % 3 == 0 && k < IndexCount(n) && sine(CornerAt(n, k + 2).row) == 0.0
    ensures forall l: nat :: k <= l < k + 3 ==> IndexAt(n, l) < |positions|
    ensures FaceNormal(n, positions, k) == Vector3(0.0, 0.0, 0.0)
  {
    hide CornerAt, Filled, IndexAt, IndexCount, Cross3, Sub3, PositionAt;
    var i, j := TriangleCorners(n, k);
    VertexOf(n, radius, sine, cosine, positions, normals, k);
    VertexOf(n, radius, sine, cosine, positions, normals, k + 1);
    VertexOf(n, radius, sine, cosine, positions, normals, k + 2);
    if CornerAt(n, k + 1) == Grid(i + 1, j) {
      PoleIsOnePoint(sine, cosine, radius, CornerAt(n, k + 1), CornerAt(n, k + 2));
    } else {
      PoleIsOnePoint(sine, cosine, radius, CornerAt(n, k), CornerAt(n, k + 2));
    }
    FlatTriangle(positions[IndexAt(n, k)], positions[IndexAt(n, k + 1)], positions[IndexAt(n, k + 2)]);
  }
}
