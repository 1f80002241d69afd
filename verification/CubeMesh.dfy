/**
 `GenerateCubeGeometry` of util/geometry_utils.cpp: six faces of four vertices, two triangles each.
 The tables are the contents the element assignments leave in the three vectors.
 */
module CubeMesh {
  import opened Vectors

  function CubePositions(radius: real): seq<Vector3> {
    [Vector3(-radius, -radius, -radius), Vector3(-radius, -radius, radius),
     Vector3(radius, -radius, radius), Vector3(radius, -radius, -radius),
     Vector3(-radius, radius, -radius), Vector3(-radius, radius, radius),
     Vector3(radius, radius, radius), Vector3(radius, radius, -radius),
     Vector3(-radius, -radius, -radius), Vector3(-radius, radius, -radius),
     Vector3(radius, radius, -radius), Vector3(radius, -radius, -radius),
     Vector3(-radius, -radius, radius), Vector3(-radius, radius, radius),
     Vector3(radius, radius, radius), Vector3(radius, -radius, radius),
     Vector3(-radius, -radius, -radius), Vector3(-radius, -radius, radius),
     Vector3(-radius, radius, radius), Vector3(-radius, radius, -radius),
     Vector3(radius, -radius, -radius), Vector3(radius, -radius, radius),
     Vector3(radius, radius, radius), Vector3(radius, radius, -radius)]
  }

  const CUBE_NORMALS: seq<Vector3> :=
    [Vector3(0.0, -1.0, 0.0), Vector3(0.0, -1.0, 0.0), Vector3(0.0, -1.0, 0.0), Vector3(0.0, -1.0, 0.0),
     Vector3(0.0, 1.0, 0.0), Vector3(0.0, 1.0, 0.0), Vector3(0.0, 1.0, 0.0), Vector3(0.0, 1.0, 0.0),
     Vector3(0.0, 0.0, -1.0), Vector3(0.0, 0.0, -1.0), Vector3(0.0, 0.0, -1.0), Vector3(0.0, 0.0, -1.0),
     Vector3(0.0, 0.0, 1.0), Vector3(0.0, 0.0, 1.0), Vector3(0.0, 0.0, 1.0), Vector3(0.0, 0.0, 1.0),
     Vector3(-1.0, 0.0, 0.0), Vector3(-1.0, 0.0, 0.0), Vector3(-1.0, 0.0, 0.0), Vector3(-1.0, 0.0, 0.0),
     Vector3(1.0, 0.0, 0.0), Vector3(1.0, 0.0, 0.0), Vector3(1.0, 0.0, 0.0), Vector3(1.0, 0.0, 0.0)]

  const CUBE_INDICES: seq<nat> :=
    [0, 2, 1, 0, 3, 2,
     4, 5, 6, 4, 6, 7,
     8, 9, 10, 8, 10, 11,
     12, 15, 14, 12, 14, 13,
     16, 17, 18, 16, 18, 19,
     20, 23, 22, 20, 22, 21]

  ghost predicate GoodTriangle(radius: real, a: nat, b: nat, c: nat) {
    && a < 24 && b < 24 && c < 24
    && CUBE_NORMALS[a] == CUBE_NORMALS[b] == CUBE_NORMALS[c]
    && Cross3(Sub3(CubePositions(radius)[b], CubePositions(radius)[a]),
              Sub3(CubePositions(radius)[c], CubePositions(radius)[a]))
       == Scale3(CUBE_NORMALS[a], 4.0 * (radius * radius))
    && Dot3(CubePositions(radius)[a], CUBE_NORMALS[a]) == radius
  }

  /**
   The three vertices of every triangle share one normal, the cross product of the triangle's edges
   is 4 * radius^2 times it, and the face lies at distance radius from the centre.
   */
  lemma CubeWinding(radius: real, t: nat)
    requires t < 12
    ensures GoodTriangle(radius, CUBE_INDICES[3 * t], CUBE_INDICES[3 * t + 1], CUBE_INDICES[3 * t + 2])
  {
    if t < 4 {
      FirstFaces(radius, t);
    } else if t < 8 {
      MiddleFaces(radius, t);
    } else {
      LastFaces(radius, t);
    }
  }

  lemma FirstFaces(radius: real, t: nat)
    requires 0 <= t < 4
    ensures GoodTriangle(radius, CUBE_INDICES[3 * t], CUBE_INDICES[3 * t + 1], CUBE_INDICES[3 * t + 2])
  {
    if t == 0 { } else if t == 1 { } else if t == 2 { } else { }
  }

  lemma MiddleFaces(radius: real, t: nat)
    requires 4 <= t < 8
    ensures GoodTriangle(radius, CUBE_INDICES[3 * t], CUBE_INDICES[3 * t + 1], CUBE_INDICES[3 * t + 2])
  {
    if t == 4 { } else if t == 5 { } else if t == 6 { } else { }
  }

  lemma LastFaces(radius: real, t: nat)
    requires 8 <= t < 12
    ensures GoodTriangle(radius, CUBE_INDICES[3 * t], CUBE_INDICES[3 * t + 1], CUBE_INDICES[3 * t + 2])
  {
    if t == 8 { } else if t == 9 { } else if t == 10 { } else { }
  }

  // ----- no corner and no face is missing

  /** The vertices v .. v + 3 share a normal and lie at four different corners. */
  ghost predicate FourCorners(radius: real, v: nat) {
    && v + 3 < 24
    && CUBE_NORMALS[v] == CUBE_NORMALS[v + 1] == CUBE_NORMALS[v + 2] == CUBE_NORMALS[v + 3]
    && forall i, j :: v <= i < j < v + 4 ==> CubePositions(radius)[i] != CubePositions(radius)[j]
  }

  lemma FirstCorners(radius: real, t: nat)
    requires 0 <= t < 2 && radius != 0.0
    ensures FourCorners(radius, 4 * t)
  {
    if t == 0 { } else { }
  }

  lemma MiddleCorners(radius: real, t: nat)
    requires 2 <= t < 4 && radius != 0.0
    ensures FourCorners(radius, 4 * t)
  {
    if t == 2 { } else { }
  }

  lemma LastCorners(radius: real, t: nat)
    requires 4 <= t < 6 && radius != 0.0
    ensures FourCorners(radius, 4 * t)
  {
    if t == 4 { } else { }
  }

  /** The three places of the index buffer from k on. */
  ghost function Triple(k: nat): set<nat>
    requires k + 2 < 36
  {
    {CUBE_INDICES[k], CUBE_INDICES[k + 1], CUBE_INDICES[k + 2]}
  }

  lemma SplitByDiagonal(t: nat)
    requires t < 6
    ensures Triple(6 * t) * Triple(6 * t + 3) == {4 * t, 4 * t + 2}
    ensures Triple(6 * t) + Triple(6 * t + 3) == {4 * t, 4 * t + 1, 4 * t + 2, 4 * t + 3}
  {
    if t == 0 { } else if t == 1 { } else if t == 2 { } else if t == 3 { } else if t == 4 { } else { }
  }

  lemma NormalsDistinct(t: nat, u: nat)
    requires t < u < 6
    ensures CUBE_NORMALS[4 * t] != CUBE_NORMALS[4 * u]
  {
  }

  /**
   Face t is the square of the vertices 4t .. 4t + 3: four different corners, cut along one diagonal
   into two triangles that use them all.  No other face has its normal.
   */
  lemma FacesComplete(radius: real, t: nat)
    requires t < 6 && radius != 0.0
    ensures FourCorners(radius, 4 * t)
    ensures Triple(6 * t) * Triple(6 * t + 3) == {4 * t, 4 * t + 2}
    ensures Triple(6 * t) + Triple(6 * t + 3) == {4 * t, 4 * t + 1, 4 * t + 2, 4 * t + 3}
    ensures forall u: nat :: u < 6 && u != t ==> CUBE_NORMALS[4 * u] != CUBE_NORMALS[4 * t]
  {
    hide FourCorners, Triple;
    if t < 2 {
      FirstCorners(radius, t);
    } else if t < 4 {
      MiddleCorners(radius, t);
    } else {
      LastCorners(radius, t);
    }
    SplitByDiagonal(t);
    forall u: nat | u < 6 && u != t ensures CUBE_NORMALS[4 * u] != CUBE_NORMALS[4 * t] {
      if u < t {
        NormalsDistinct(u, t);
      } else {
        NormalsDistinct(t, u);
      }
    }
  }
}
