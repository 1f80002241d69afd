/** The geometry of samples/multi_window/MultiWindow.cpp: all windows turn about their common middle. */
module MultiWindow {
  import opened Vectors
  import opened Matrices
  import opened Rotations
  import opened Projections

  datatype Window = Window(x: int, y: int, width: int, height: int)

  ghost predicate IsMin(ends: seq<int>, m: int) {
    m in ends && forall i :: 0 <= i < |ends| ==> m <= ends[i]
  }

  ghost predicate IsMax(ends: seq<int>, m: int) {
    m in ends && forall i :: 0 <= i < |ends| ==> ends[i] <= m
  }

  ghost function Lefts(ws: seq<Window>): seq<int> { seq(|ws|, i requires 0 <= i < |ws| => ws[i].x) }
  ghost function Rights(ws: seq<Window>): seq<int> { seq(|ws|, i requires 0 <= i < |ws| => ws[i].x + ws[i].width) }
  ghost function Tops(ws: seq<Window>): seq<int> { seq(|ws|, i requires 0 <= i < |ws| => ws[i].y) }
  ghost function Bottoms(ws: seq<Window>): seq<int> { seq(|ws|, i requires 0 <= i < |ws| => ws[i].y + ws[i].height) }

  function Min(a: int, b: int): int { if b < a then b else a }
  function Max(a: int, b: int): int { if a < b then b else a }

  /** The loop of `draw`: the tight bounding box of all windows, starting from the root window. */
  method BoundingBox(windows: seq<Window>) returns (left: int, right: int, top: int, bottom: int)
    requires |windows| > 0
    ensures IsMin(Lefts(windows), left) && IsMax(Rights(windows), right)
    ensures IsMin(Tops(windows), top) && IsMax(Bottoms(windows), bottom)
  {
    var root := windows[0];
    left, right, top, bottom := root.x, root.x + root.width, root.y, root.y + root.height;
    assert Lefts(windows)[0] == left && Rights(windows)[0] == right;
    assert Tops(windows)[0] == top && Bottoms(windows)[0] == bottom;
    for i := 0 to |windows|
      invariant left in Lefts(windows) && right in Rights(windows)
      invariant top in Tops(windows) && bottom in Bottoms(windows)
      invariant forall k :: 0 <= k < i ==> left <= windows[k].x && windows[k].x + windows[k].width <= right
      invariant forall k :: 0 <= k < i ==> top <= windows[k].y && windows[k].y + windows[k].height <= bottom
    {
      var w := windows[i];
      assert Lefts(windows)[i] == w.x && Rights(windows)[i] == w.x + w.width;
      assert Tops(windows)[i] == w.y && Bottoms(windows)[i] == w.y + w.height;
      left := Min(left, w.x);
      right := Max(right, w.x + w.width);
      top := Min(top, w.y);
      bottom := Max(bottom, w.y + w.height);
    }
  }

  /** Half of a sum of two ends: `(left + right) * 0.5f`. */
  function Middle(a: int, b: int): real {
    (a + b) as real * 0.5
  }

  /** `modelMatrix`: move the middle to the origin, turn about z, move back. */
  function ModelMatrix(c: real, s: real, midX: real, midY: real): Mat4 {
    Mul(Mul(Translation(Vector3(midX, midY, 0.0)), Rotate(c, s, Vector3(0.0, 0.0, 1.0), 1.0)),
        Translation(Vector3(-midX, -midY, 0.0)))
  }

  /** The matrix turns the plane about the middle and leaves the depth alone. */
  lemma ModelMatrixTurns(c: real, s: real, midX: real, midY: real, x: real, y: real, z: real)
    ensures Apply(ModelMatrix(c, s, midX, midY), Point(x, y, z))
         == Point(midX + ((x - midX) * c - (y - midY) * s), midY + ((y - midY) * c + (x - midX) * s), z)
  {
    var t, r, b := Translation(Vector3(midX, midY, 0.0)), Rotate(c, s, Vector3(0.0, 0.0, 1.0), 1.0),
                   Translation(Vector3(-midX, -midY, 0.0));
    ApplyMul(Mul(t, r), b, Point(x, y, z));
    TranslationMoves(Vector3(-midX, -midY, 0.0), x, y, z);
    ApplyMul(t, r, Point(x - midX, y - midY, z));
    RotateAboutZ(c, s, x - midX, y - midY, z);
    TranslationMoves(Vector3(midX, midY, 0.0), (x - midX) * c - (y - midY) * s, (y - midY) * c + (x - midX) * s, z);
    hide Apply, Mul, Translation, Rotate;
  }

  lemma RotateAboutZ(c: real, s: real, x: real, y: real, z: real)
    ensures Apply(Rotate(c, s, Vector3(0.0, 0.0, 1.0), 1.0), Point(x, y, z)) == Point(x * c - y * s, y * c + x * s, z)
  {
    assert Normalized(Vector3(0.0, 0.0, 1.0), 1.0) == Vector3(0.0, 0.0, 1.0);
    assert AboutUnit(c, s, Vector3(0.0, 0.0, 1.0))
        == Mat4(c, -s, 0.0, 0.0, s, c, 0.0, 0.0, 0.0, 0.0, 1.0, 0.0, 0.0, 0.0, 0.0, 1.0);
  }

  /** The middle of the bounding box, as far from one edge as from the other, stays where it is. */
  lemma ModelMatrixFixesMiddle(c: real, s: real, left: int, right: int, top: int, bottom: int, z: real)
    ensures Middle(left, right) - left as real == right as real - Middle(left, right)
    ensures Middle(top, bottom) - top as real == bottom as real - Middle(top, bottom)
    ensures var midX, midY := Middle(left, right), Middle(top, bottom);
      Apply(ModelMatrix(c, s, midX, midY), Point(midX, midY, z)) == Point(midX, midY, z)
  {
    ModelMatrixTurns(c, s, Middle(left, right), Middle(top, bottom), Middle(left, right), Middle(top, bottom), z);
  }

  function SquaredDistance(a: Vector4, b: Vector4): real {
    (a.x - b.x) * (a.x - b.x) + (a.y - b.y) * (a.y - b.y) + (a.z - b.z) * (a.z - b.z)
  }

  /** The distance between any two points stays the same. */
  lemma ModelMatrixRigid(c: real, s: real, midX: real, midY: real,
                         x: real, y: real, z: real, x': real, y': real, z': real)
    requires OnCircle(c, s)
    ensures var m := ModelMatrix(c, s, midX, midY);
      SquaredDistance(Apply(m, Point(x, y, z)), Apply(m, Point(x', y', z')))
      == SquaredDistance(Point(x, y, z), Point(x', y', z'))
  {
    ModelMatrixTurns(c, s, midX, midY, x, y, z);
    ModelMatrixTurns(c, s, midX, midY, x', y', z');
    PlaneRotation(c, s, x - x', y - y');
  }

  lemma PlaneRotation(c: real, s: real, dx: real, dy: real)
    requires OnCircle(c, s)
    ensures (dx * c - dy * s) * (dx * c - dy * s) + (dy * c + dx * s) * (dy * c + dx * s) == dx * dx + dy * dy
  {
    assert (dx * c - dy * s) * (dx * c - dy * s) + (dy * c + dx * s) * (dy * c + dx * s)
        == (dx * dx + dy * dy) * (c * c + s * s);
  }
}
