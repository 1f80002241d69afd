/** The index buffer of `CreateSphereGeometry` as a mesh: the range of 16 bits, and how triangles meet. */
module SphereTopology {
  import opened RowMajor
  import opened SphereMesh

  // ----- the range of the indices

  lemma CornerOnGrid(n: nat, k: nat)
    requires k < IndexCount(n)
    ensures OnGrid(n, CornerAt(n, k)) && IndexAt(n, k) < VertexCount(n)
  {
    var i, j, c := PlaceInCell(n, k);
    NumberingBijective(n);
  }

  lemma VertexCountFits(n: nat)
    requires n <= 361
    ensures VertexCount(n) <= 0x1_0000
  {
    MulMonotone(Parallels(n) + 1, 181, n + 1);
  }

  /** The edge that runs along parallel r from slice q to slice q + 1. */
  lemma RightEdge(n: nat, r: nat, q: nat) returns (k: nat)
    requires 1 <= r <= Parallels(n) && q < n
    ensures k < IndexCount(n) && After(k) < IndexCount(n)
    ensures IndexAt(n, k) == r * (n + 1) + q
    ensures IndexAt(n, After(k)) == r * (n + 1) + q + 1
    ensures EdgeAt(n, k) == Edge(Grid(r, q), Grid(r, q + 1))
  {
    var t := (r - 1) * n + q;
    CellEdgeAt(n, r - 1, q, t, 1);
    k := 6 * t + 1;
    assert EdgeAt(n, k) == Edge(Grid(r, q), Grid(r, q + 1));
  }

  lemma Lossless(n: nat, k: nat)
    requires n <= 361 && k < IndexCount(n)
    ensures U16(IndexAt(n, k)) == IndexAt(n, k)
  {
    hide IndexAt, IndexCount, VertexCount;
    VertexCountFits(n);
    CornerOnGrid(n, k);
  }

  lemma Lossy(n: nat) returns (k: nat)
    requires n > 361
    ensures k < IndexCount(n) && U16(IndexAt(n, k)) != IndexAt(n, k)
  {
    hide IndexAt, IndexCount;
    k := RightEdge(n, Parallels(n), n - 1);
    MulMonotone(181, Parallels(n), n + 1);
  }

  /** Every cast to 16 bits is lossless exactly for up to 361 slices. */
  lemma CastsLosslessIff(n: nat)
    ensures (forall k: nat :: k < IndexCount(n) ==> U16(IndexAt(n, k)) == IndexAt(n, k)) <==> n <= 361
  {
    hide IndexAt, U16;
    if n <= 361 {
      forall k: nat | k < IndexCount(n) ensures U16(IndexAt(n, k)) == IndexAt(n, k) {
        Lossless(n, k);
      }
    } else {
      var k := Lossy(n);
    }
  }

  // ----- the stored buffer as a mesh

  /** The directed edge of a stored triangle that starts at place k. */
  function StoredEdge(s: seq<int>, k: nat): (int, int)
    requires |s| % 3 == 0 && k < |s|
  {
    (s[k], s[After(k)])
  }

  ghost predicate StoredEdgesDistinct(s: seq<int>)
    requires |s| % 3 == 0
  {
    forall k: nat, l: nat :: k < |s| && l < |s| && StoredEdge(s, k) == StoredEdge(s, l) ==> k == l
  }

  ghost predicate ReverseStored(s: seq<int>, k: nat)
    requires |s| % 3 == 0 && k < |s|
  {
    exists l: nat :: l < |s| && StoredEdge(s, l) == (StoredEdge(s, k).1, StoredEdge(s, k).0)
  }

  lemma StoredIsWide(n: nat, s: seq<int>, k: nat)
    requires Pushed(n, s, IndexCount(n)) && n <= 361 && k < |s|
    ensures s[k] == IndexAt(n, k)
  {
    Lossless(n, k);
  }

  lemma SameNumberSameCorner(n: nat, k: nat, l: nat)
    requires k < IndexCount(n) && l < IndexCount(n) && IndexAt(n, k) == IndexAt(n, l)
    ensures CornerAt(n, k) == CornerAt(n, l)
  {
    CornerOnGrid(n, k);
    CornerOnGrid(n, l);
    NumberingBijective(n);
    hide CornerAt, GridOf, Number;
    assert GridOf(n, Number(n, CornerAt(n, k))) == GridOf(n, Number(n, CornerAt(n, l)));
  }

  lemma SameStored(n: nat, s: seq<int>, k: nat, l: nat)
    requires Pushed(n, s, IndexCount(n)) && n <= 361 && k < |s| && l < |s|
    ensures s[k] == s[l] <==> CornerAt(n, k) == CornerAt(n, l)
  {
    StoredIsWide(n, s, k);
    StoredIsWide(n, s, l);
    hide CornerAt, Number, Pushed;
    if s[k] == s[l] { SameNumberSameCorner(n, k, l); }
  }

  lemma AfterInside(s: seq<int>, k: nat)
    requires |s| % 3 == 0 && k < |s|
    ensures After(k) < |s|
  {
  }

  lemma SameStoredEdge(n: nat, s: seq<int>, k: nat, l: nat)
    requires Pushed(n, s, IndexCount(n)) && n <= 361 && k < |s| && l < |s|
    ensures StoredEdge(s, k) == StoredEdge(s, l) <==> EdgeAt(n, k) == EdgeAt(n, l)
    ensures StoredEdge(s, k) == (StoredEdge(s, l).1, StoredEdge(s, l).0) <==> EdgeAt(n, k) == Reverse(EdgeAt(n, l))
  {
    AfterInside(s, k);
    AfterInside(s, l);
    hide CornerAt, IndexAt, IndexCount, After, U16;
    SameStored(n, s, k, l);
    SameStored(n, s, k, After(l));
    SameStored(n, s, After(k), After(l));
    SameStored(n, s, After(k), l);
  }

  /** For more slices: an edge along a parallel whose numbers exceed those of one by exactly 2^16. */
  lemma WrappedVertex(n: nat) returns (r: nat, q: nat, x: nat)
    requires n > 361
    ensures 1 <= r <= Parallels(n) && q < n && x < 2
    ensures r * (n + 1) + q == 0x1_0000 + (1 * (n + 1) + x)
  {
    var d := n + 1;
    x := if (0x1_0000 + d) % d < n then 0 else 1;
    var v := 0x1_0000 + d + x;
    MulMonotone(182, Parallels(n) + 1, d);
    QuotientBelow(v, Parallels(n) + 1, d);
    ColumnBeforeLast(0x1_0000 + d, d, x);
    r, q := v / d, v % d;
    if r == 0 {
      assert false;
    }
  }

  lemma WrappedEdges(n: nat) returns (k: nat, l: nat)
    requires n > 361
    ensures k < IndexCount(n) && l < IndexCount(n) && k != l
    ensures After(k) < IndexCount(n) && After(l) < IndexCount(n)
    ensures U16(IndexAt(n, k)) == U16(IndexAt(n, l)) && U16(IndexAt(n, After(k))) == U16(IndexAt(n, After(l)))
  {
    hide IndexAt, IndexCount;
    var r, q, x := WrappedVertex(n);
    k := RightEdge(n, r, q);
    l := RightEdge(n, 1, x);
    WrapsAround(IndexAt(n, l));
    WrapsAround(IndexAt(n, After(l)));
  }

  lemma ColumnBeforeLast(a: nat, d: nat, x: nat)
    requires d >= 2 && x == if a % d < d - 1 then 0 else 1
    ensures (a + x) % d < d - 1
  {
    if x == 1 {
      assert a == a / d * d + (d - 1);
      DivMod(a / d + 1, d, 0);
      assert a + 1 == (a / d + 1) * d + 0;
    }
  }

  lemma WrapsAround(a: nat)
    ensures U16(0x1_0000 + a) == U16(a)
  {
  }

  /** In the stored buffer no directed edge occurs twice, exactly for up to 361 slices. */
  lemma StoredEdgesDistinctIff(n: nat, s: seq<int>)
    requires Pushed(n, s, IndexCount(n))
    ensures StoredEdgesDistinct(s) <==> n <= 361
  {
    hide IndexCount, IndexAt, EdgeAt, U16;
    if n <= 361 {
      forall k: nat, l: nat | k < |s| && l < |s| && StoredEdge(s, k) == StoredEdge(s, l) ensures k == l {
        SameStoredEdge(n, s, k, l);
        EdgesDistinct(n, k, l);
      }
    } else {
      var k, l := WrappedEdges(n);
      assert StoredEdge(s, k) == StoredEdge(s, l);
    }
  }

  lemma ReverseStoredUnwrapped(n: nat, s: seq<int>, k: nat)
    requires Pushed(n, s, IndexCount(n)) && n <= 361 && k < |s|
    ensures ReverseStored(s, k) <==> !Boundary(n, EdgeAt(n, k))
  {
    assert |s| == IndexCount(n) && |s| % 3 == 0 && n > 0;
    hide IndexCount, IndexAt, EdgeAt, U16, Boundary;
    ReverseOccursIffInterior(n, k);
    hide StoredEdge, Pushed;
    if Occurs(n, Reverse(EdgeAt(n, k))) {
      var l: nat :| l < IndexCount(n) && EdgeAt(n, l) == Reverse(EdgeAt(n, k));
      SameStoredEdge(n, s, l, k);
      assert StoredEdge(s, l) == (StoredEdge(s, k).1, StoredEdge(s, k).0);
    }
    if ReverseStored(s, k) {
      var l: nat :| l < |s| && StoredEdge(s, l) == (StoredEdge(s, k).1, StoredEdge(s, k).0);
      SameStoredEdge(n, s, l, k);
      assert EdgeAt(n, l) == Reverse(EdgeAt(n, k));
    }
  }

  /** The edge that runs back along parallel r from slice q + 1 to slice q. */
  lemma LeftEdge(n: nat, r: nat, q: nat) returns (k: nat)
    requires r < Parallels(n) && q < n
    ensures k < IndexCount(n) && After(k) < IndexCount(n)
    ensures IndexAt(n, k) == r * (n + 1) + q + 1
    ensures IndexAt(n, After(k)) == r * (n + 1) + q
  {
    var t := r * n + q;
    CellEdgeAt(n, r, q, t, 5);
    k := 6 * t + 5;
    assert EdgeAt(n, k) == Edge(Grid(r, q + 1), Grid(r, q));
  }

  /** For more slices: a vertex of the last parallel whose number exceeds one further up by exactly 2^16. */
  lemma WrappedLastRow(n: nat) returns (x: nat, r: nat, q: nat)
    requires n > 361
    ensures x < 2 && r < Parallels(n) && q < n
    ensures Parallels(n) * (n + 1) + x == 0x1_0000 + (r * (n + 1) + q)
  {
    var d, p := n + 1, Parallels(n);
    MulMonotone(181, p, d);
    var u := p * d - 0x1_0000;
    x := if u % d < n then 0 else 1;
    ColumnBeforeLast(u, d, x);
    QuotientBelow(u + x, p, d);
    r, q := (u + x) / d, (u + x) % d;
  }

  /** An edge of the last parallel is stored as the reverse of one further up. */
  lemma WrappedBoundary(n: nat) returns (k: nat, l: nat)
    requires n > 361
    ensures k < IndexCount(n) && l < IndexCount(n) && Boundary(n, EdgeAt(n, k))
    ensures After(k) < IndexCount(n) && After(l) < IndexCount(n)
    ensures U16(IndexAt(n, k)) == U16(IndexAt(n, After(l))) && U16(IndexAt(n, After(k))) == U16(IndexAt(n, l))
  {
    hide IndexAt, IndexCount;
    var x, r, q := WrappedLastRow(n);
    k := RightEdge(n, Parallels(n), x);
    l := LeftEdge(n, r, q);
    WrapsAround(IndexAt(n, l));
    WrapsAround(IndexAt(n, After(l)));
  }

  /**
   The stored mesh is consistently wound, exactly for up to 361 slices: an interior edge is met by a
   second triangle in the opposite direction, a boundary edge is not.
   */
  lemma StoredReverseIff(n: nat, s: seq<int>)
    requires Pushed(n, s, IndexCount(n))
    ensures (forall k: nat :: k < |s| ==> (ReverseStored(s, k) <==> !Boundary(n, EdgeAt(n, k)))) <==> n <= 361
  {
    hide IndexCount, IndexAt, EdgeAt, U16, Boundary, ReverseStored;
    NoIndices(n);
    if n <= 361 {
      forall k: nat | k < |s| ensures ReverseStored(s, k) <==> !Boundary(n, EdgeAt(n, k)) {
        ReverseStoredUnwrapped(n, s, k);
      }
    } else {
      var k := WrappedReverse(n, s);
    }
  }

  lemma NoIndices(n: nat)
    ensures n == 0 ==> IndexCount(n) == 0
    ensures IndexCount(n) % 3 == 0
  {
  }

  lemma WrappedReverse(n: nat, s: seq<int>) returns (k: nat)
    requires Pushed(n, s, IndexCount(n)) && n > 361
    ensures k < |s| && Boundary(n, EdgeAt(n, k)) && ReverseStored(s, k)
  {
    hide IndexCount, IndexAt, EdgeAt, U16, Boundary, ReverseStored, After;
    var l;
    k, l := WrappedBoundary(n);
    ReverseAt(s, k, l);
  }

  lemma ReverseAt(s: seq<int>, k: nat, l: nat)
    requires |s| % 3 == 0 && k < |s| && l < |s| && After(k) < |s| && After(l) < |s|
    requires s[l] == s[After(k)] && s[After(l)] == s[k]
    ensures ReverseStored(s, k)
  {
    assert StoredEdge(s, l) == (StoredEdge(s, k).1, StoredEdge(s, k).0);
  }
}
