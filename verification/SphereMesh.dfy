/**
 `CreateSphereGeometry` of util/geometry_utils.cpp: vertices on a grid of parallels and slices,
 two triangles per grid cell, indices stored in 16 bits.

 `sine` and `cosine` stand for the values of `sinf` and `cosf` at the multiples of the angle step.
 */
module SphereMesh {
  import opened Vectors
  import opened RowMajor

  class SphereGeometry {
    var positions: array<Vector3>
    var normals: array<Vector3>
    var indices: seq<int>

    constructor ()
      ensures fresh(positions) && fresh(normals) && positions != normals && indices == []
    {
      positions := new Vector3[0];
      normals := new Vector3[0];
      indices := [];
      new;
    }
  }

  function Parallels(n: nat): nat { n / 2 }

  function VertexCount(n: nat): nat { (Parallels(n) + 1) * (n + 1) }

  function IndexCount(n: nat): nat { Parallels(n) * n * 6 }

  /** `static_cast<unsigned short>`. */
  function U16(x: nat): nat { x % 0x1_0000 }

  // ----- the vertex grid

  datatype Grid = Grid(row: nat, col: nat)

  function Number(n: nat, g: Grid): nat { g.row * (n + 1) + g.col }

  ghost predicate OnGrid(n: nat, g: Grid) { g.row <= Parallels(n) && g.col <= n }

  function GridOf(n: nat, v: nat): Grid { Grid(v / (n + 1), v % (n + 1)) }

  /** The point at latitude (s, c) and longitude (p, q), each given by sine and cosine. */
  function Spherical(s: real, c: real, p: real, q: real): Vector3 {
    Vector3(s * p, c, s * q)
  }

  function Direction(sine: nat -> real, cosine: nat -> real, g: Grid): Vector3 {
    Spherical(sine(g.row), cosine(g.row), sine(g.col), cosine(g.col))
  }

  /** Row-major numbering is a bijection between the grid and [0, vertexCount). */
  lemma NumberingBijective(n: nat)
    ensures forall g :: OnGrid(n, g) ==> Number(n, g) < VertexCount(n) && GridOf(n, Number(n, g)) == g
    ensures forall v: nat :: v < VertexCount(n) ==> OnGrid(n, GridOf(n, v)) && Number(n, GridOf(n, v)) == v
  {
    forall g | OnGrid(n, g) ensures Number(n, g) < VertexCount(n) && GridOf(n, Number(n, g)) == g {
      DivMod(g.row, n + 1, g.col);
      RowsBelow(g.row, Parallels(n) + 1, n + 1);
    }
    forall v: nat | v < VertexCount(n) ensures OnGrid(n, GridOf(n, v)) && Number(n, GridOf(n, v)) == v {
      QuotientBelow(v, Parallels(n) + 1, n + 1);
    }
  }

  // ----- the index buffer

  /** The six corners of a cell, in the order they are pushed. */
  function Corner(i: nat, j: nat, c: nat): Grid {
    if c == 0 || c == 3 then Grid(i, j)
    else if c == 1 then Grid(i + 1, j)
    else if c == 2 || c == 4 then Grid(i + 1, j + 1)
    else Grid(i, j + 1)
  }

  /** The corner at place k of the buffer: cells in row-major order, six places each. */
  function CornerAt(n: nat, k: nat): Grid
    requires n > 0
  {
    Corner(k / 6 / n, k / 6 % n, k % 6)
  }

  /** The number at place k before the cast to 16 bits. */
  function IndexAt(n: nat, k: nat): nat
    requires n > 0
  {
    Number(n, CornerAt(n, k))
  }

  lemma CornerAtCell(n: nat, i: nat, j: nat, t: nat, c: nat)
    requires j < n && c < 6 && t == i * n + j
    ensures CornerAt(n, 6 * t + c) == Corner(i, j, c)
    ensures IndexAt(n, 6 * t + c) == Number(n, Corner(i, j, c))
  {
    assert (6 * t + c) / 6 == t && (6 * t + c) % 6 == c;
    DivMod(i, n, j);
  }

  // ----- the function

  /** The first `count` vertices carry the direction of their grid point, and its multiple. */
  ghost predicate Filled(n: nat, radius: real, sine: nat -> real, cosine: nat -> real,
                         positions: seq<Vector3>, normals: seq<Vector3>, count: int) {
    && count <= |positions| == |normals|
    && (forall v :: 0 <= v < count ==> normals[v] == Direction(sine, cosine, GridOf(n, v)))
    && (forall v :: 0 <= v < count ==> positions[v] == Scale3(Direction(sine, cosine, GridOf(n, v)), radius))
  }

  lemma FillOne(n: nat, radius: real, sine: nat -> real, cosine: nat -> real,
                positions: seq<Vector3>, normals: seq<Vector3>, i: nat, j: nat, v: nat)
    requires Filled(n, radius, sine, cosine, positions, normals, v)
    requires j <= n && v == i * (n + 1) + j < |positions|
    ensures var d := Direction(sine, cosine, Grid(i, j));
      Filled(n, radius, sine, cosine, positions[v := Scale3(d, radius)], normals[v := d], v + 1)
  {
    DivMod(i, n + 1, j);
  }

  method FillVertices(n: nat, radius: real, sine: nat -> real, cosine: nat -> real,
                      positions: array<Vector3>, normals: array<Vector3>)
    requires positions != normals && positions.Length == normals.Length == VertexCount(n)
    modifies positions, normals
    ensures Filled(n, radius, sine, cosine, positions[..], normals[..], VertexCount(n))
  {
    ghost var done := 0;
    for i := 0 to Parallels(n) + 1
      invariant done == i * (n + 1)
      invariant Filled(n, radius, sine, cosine, positions[..], normals[..], done)
    {
      hide Filled;
      RowsBelow(i, Parallels(n) + 1, n + 1);
      FillRow(n, radius, sine, cosine, positions, normals, i, done);
      done := done + (n + 1);
    }
  }

  method FillRow(n: nat, radius: real, sine: nat -> real, cosine: nat -> real,
                 positions: array<Vector3>, normals: array<Vector3>, i: nat, ghost start: nat)
    requires positions != normals && positions.Length == normals.Length
    requires start == i * (n + 1) && start + (n + 1) <= positions.Length
    requires Filled(n, radius, sine, cosine, positions[..], normals[..], start)
    modifies positions, normals
    ensures Filled(n, radius, sine, cosine, positions[..], normals[..], start + (n + 1))
  {
    hide Filled;
    for j := 0 to n + 1
      invariant Filled(n, radius, sine, cosine, positions[..], normals[..], start + j)
    {
      var direction := Vector3(sine(i) * sine(j), cosine(i), sine(i) * cosine(j));
      var vertexIdx := i * (n + 1) + j;
      ghost var p, q := positions[..], normals[..];
      FillOne(n, radius, sine, cosine, p, q, i, j, start + j);
      positions[vertexIdx] := Scale3(direction, radius);
      normals[vertexIdx] := direction;
      assert direction == Direction(sine, cosine, Grid(i, j));
      assert positions[..] == p[start + j := Scale3(direction, radius)];
      assert normals[..] == q[start + j := direction];
    }
  }

  /** The first `count` places of the buffer hold the numbers of their corners, cut to 16 bits. */
  ghost predicate Pushed(n: nat, indices: seq<int>, count: nat) {
    && |indices| == count && count % 6 == 0
    && forall k :: 0 <= k < count ==> n > 0 && indices[k] == U16(IndexAt(n, k))
  }

  lemma CellIndices(n: nat, i: nat, j: nat, t: nat)
    requires j < n && t == i * n + j
    ensures IndexAt(n, 6 * t) == IndexAt(n, 6 * t + 3) == i * (n + 1) + j
    ensures IndexAt(n, 6 * t + 1) == (i + 1) * (n + 1) + j
    ensures IndexAt(n, 6 * t + 2) == IndexAt(n, 6 * t + 4) == (i + 1) * (n + 1) + (j + 1)
    ensures IndexAt(n, 6 * t + 5) == i * (n + 1) + (j + 1)
  {
    hide IndexAt, CornerAt;
    CornerAtCell(n, i, j, t, 0);
    CornerAtCell(n, i, j, t, 1);
    CornerAtCell(n, i, j, t, 2);
    CornerAtCell(n, i, j, t, 3);
    CornerAtCell(n, i, j, t, 4);
    CornerAtCell(n, i, j, t, 5);
    NumberOf(n, i, j);
    NumberOf(n, i + 1, j);
    NumberOf(n, i + 1, j + 1);
    NumberOf(n, i, j + 1);
    hide Number;
  }

  lemma NumberOf(n: nat, i: nat, j: nat)
    ensures Number(n, Grid(i, j)) == i * (n + 1) + j
  {
  }

  lemma PushSix(n: nat, indices: seq<int>, t: nat, six: seq<int>)
    requires n > 0 && Pushed(n, indices, 6 * t) && |six| == 6
    requires forall c :: 0 <= c < 6 ==> six[c] == U16(IndexAt(n, 6 * t + c))
    ensures Pushed(n, indices + six, 6 * t + 6)
  {
    hide IndexAt, U16;
    var all := indices + six;
    forall k | 0 <= k < 6 * t + 6 ensures all[k] == U16(IndexAt(n, k)) {
      if k >= 6 * t {
        assert all[k] == six[k - 6 * t];
        assert 6 * t + (k - 6 * t) == k;
      }
    }
  }

  method PushCell(n: nat, i: nat, j: nat, indices: seq<int>, ghost t: nat) returns (pushed: seq<int>)
    requires j < n && t == i * n + j && Pushed(n, indices, 6 * t)
    ensures Pushed(n, pushed, 6 * t + 6)
  {
    hide Pushed, IndexAt, U16;
    CellIndices(n, i, j, t);
    pushed := indices + [U16(i * (n + 1) + j)];
    pushed := pushed + [U16((i + 1) * (n + 1) + j)];
    pushed := pushed + [U16((i + 1) * (n + 1) + (j + 1))];
    pushed := pushed + [U16(i * (n + 1) + j)];
    pushed := pushed + [U16((i + 1) * (n + 1) + (j + 1))];
    pushed := pushed + [U16(i * (n + 1) + (j + 1))];
    ghost var six := [U16(IndexAt(n, 6 * t)), U16(IndexAt(n, 6 * t + 1)), U16(IndexAt(n, 6 * t + 2)),
                      U16(IndexAt(n, 6 * t + 3)), U16(IndexAt(n, 6 * t + 4)), U16(IndexAt(n, 6 * t + 5))];
    assert pushed == indices + six;
    PushSix(n, indices, t, six);
  }

  method PushIndices(n: nat, result: SphereGeometry)
    modifies result`indices
    ensures Pushed(n, result.indices, IndexCount(n))
  {
    result.indices := [];
    ghost var done := 0;
    for i := 0 to Parallels(n)
      invariant done == 6 * (i * n)
      invariant Pushed(n, result.indices, done)
    {
      hide Pushed;
      for j := 0 to n
        invariant done == 6 * (i * n + j)
        invariant Pushed(n, result.indices, done)
      {
        result.indices := PushCell(n, i, j, result.indices, i * n + j);
        done := done + 6;
      }
      assert (i + 1) * n == i * n + n;
    }
  }

  method CreateSphereGeometry(sliceCount: nat, radius: real, sine: nat -> real, cosine: nat -> real,
                              result: SphereGeometry)
    modifies result
    ensures fresh(result.positions) && fresh(result.normals)
    ensures |result.positions[..]| == |result.normals[..]| == VertexCount(sliceCount)
    ensures Filled(sliceCount, radius, sine, cosine, result.positions[..], result.normals[..], VertexCount(sliceCount))
    ensures Pushed(sliceCount, result.indices, IndexCount(sliceCount))
  {
    var parallelCount := sliceCount / 2;
    var vertexCount := (parallelCount + 1) * (sliceCount + 1);
    result.positions := new Vector3[vertexCount];
    result.normals := new Vector3[vertexCount];
    FillVertices(sliceCount, radius, sine, cosine, result.positions, result.normals);
    PushIndices(sliceCount, result);
  }

  // ----- topology: directed edges of the triangles

  datatype Edge = Edge(from: Grid, to: Grid)

  function Reverse(e: Edge): Edge { Edge(e.to, e.from) }

  /** The place of the next corner of the same triangle. */
  function After(k: nat): nat { k - k % 3 + (k + 1) % 3 }

  function EdgeAt(n: nat, k: nat): Edge
    requires n > 0
  {
    Edge(CornerAt(n, k), CornerAt(n, After(k)))
  }

  function CellEdge(i: nat, j: nat, c: nat): Edge
    requires c < 6
  {
    Edge(Corner(i, j, c), Corner(i, j, After(c)))
  }

  lemma CellEdgeAt(n: nat, i: nat, j: nat, t: nat, c: nat)
    requires j < n && i < Parallels(n) && t == i * n + j && c < 6
    ensures CornerAt(n, 6 * t + c) == Corner(i, j, c)
    ensures EdgeAt(n, 6 * t + c) == CellEdge(i, j, c)
    ensures t < Parallels(n) * n && 6 * t + c < IndexCount(n) && After(6 * t + c) < IndexCount(n)
  {
    RowsBelow(i, Parallels(n), n);
    assert After(6 * t + c) == 6 * t + After(c);
    CornerAtCell(n, i, j, t, c);
    CornerAtCell(n, i, j, t, After(c));
    hide CornerAt, Corner;
  }

  /** Where a place of the buffer belongs: its cell and its corner in the cell. */
  lemma PlaceInCell(n: nat, k: nat) returns (i: nat, j: nat, c: nat)
    requires k < IndexCount(n)
    ensures i < Parallels(n) && j < n && c < 6 && k == 6 * (i * n + j) + c
    ensures CornerAt(n, k) == Corner(i, j, c) && EdgeAt(n, k) == CellEdge(i, j, c)
    ensures After(k) < IndexCount(n)
  {
    assert n > 0;
    i, j, c := k / 6 / n, k / 6 % n, k % 6;
    QuotientBelow(k / 6, Parallels(n), n);
    CellEdgeAt(n, i, j, k / 6, c);
  }

  lemma CellEdgeInjective(i: nat, j: nat, c: nat, i': nat, j': nat, c': nat)
    requires c < 6 && c' < 6 && CellEdge(i, j, c) == CellEdge(i', j', c')
    ensures i == i' && j == j' && c == c'
  {
  }

  /** No directed edge occurs twice. */
  lemma EdgesDistinct(n: nat, k: nat, l: nat)
    requires k < IndexCount(n) && l < IndexCount(n) && EdgeAt(n, k) == EdgeAt(n, l)
    ensures k == l
  {
    var i, j, c := PlaceInCell(n, k);
    var i', j', c' := PlaceInCell(n, l);
    CellEdgeInjective(i, j, c, i', j', c');
  }

  /** Along the first or last parallel, or the first or last slice. */
  ghost predicate Boundary(n: nat, e: Edge) {
    || e.from.row == e.to.row == 0
    || e.from.row == e.to.row == Parallels(n)
    || e.from.col == e.to.col == 0
    || e.from.col == e.to.col == n
  }

  ghost predicate Occurs(n: nat, e: Edge) {
    exists k: nat :: k < IndexCount(n) && EdgeAt(n, k) == e
  }

  lemma CellEdgeOccurs(n: nat, i: nat, j: nat, c: nat)
    requires j < n && i < Parallels(n) && c < 6
    ensures Occurs(n, CellEdge(i, j, c))
  {
    var t := i * n + j;
    CellEdgeAt(n, i, j, t, c);
    hide EdgeAt, CellEdge;
    assert 6 * t + c < IndexCount(n) && EdgeAt(n, 6 * t + c) == CellEdge(i, j, c);
  }

  /** The cell and corner of the edge that runs the other way. */
  function PartnerOf(i: nat, j: nat, c: nat): (int, int, nat)
    requires c < 6
  {
    if c == 0 then (i, j - 1, 4)
    else if c == 1 then (i + 1, j, 5)
    else if c == 2 then (i, j, 3)
    else if c == 3 then (i, j, 2)
    else if c == 4 then (i, j + 1, 0)
    else (i - 1, j, 1)
  }

  lemma PartnerExists(n: nat, i: nat, j: nat, c: nat)
    requires i < Parallels(n) && j < n && c < 6 && !Boundary(n, CellEdge(i, j, c))
    ensures var (i', j', c') := PartnerOf(i, j, c);
      0 <= i' < Parallels(n) && 0 <= j' < n && c' < 6 && CellEdge(i', j', c') == Reverse(CellEdge(i, j, c))
  {
  }

  lemma NoPartner(n: nat, i: nat, j: nat, c: nat, i': nat, j': nat, c': nat)
    requires i < Parallels(n) && j < n && c < 6 && Boundary(n, CellEdge(i, j, c))
    requires i' < Parallels(n) && j' < n && c' < 6
    ensures CellEdge(i', j', c') != Reverse(CellEdge(i, j, c))
  {
  }

  /** An edge is met by a second triangle, in the opposite direction, exactly when it is interior. */
  lemma ReverseOccursIffInterior(n: nat, k: nat)
    requires k < IndexCount(n)
    ensures Occurs(n, Reverse(EdgeAt(n, k))) <==> !Boundary(n, EdgeAt(n, k))
  {
    var i, j, c := PlaceInCell(n, k);
    hide EdgeAt, CellEdge, CornerAt, Corner, Boundary;
    if Boundary(n, EdgeAt(n, k)) {
      forall l: nat | l < IndexCount(n) ensures EdgeAt(n, l) != Reverse(EdgeAt(n, k)) {
        var i', j', c' := PlaceInCell(n, l);
        NoPartner(n, i, j, c, i', j', c');
      }
    } else {
      PartnerExists(n, i, j, c);
      var (i', j', c') := PartnerOf(i, j, c);
      CellEdgeOccurs(n, i', j', c');
    }
  }
}
