/**
 Determinants of four row vectors, independent of how `Matrix4::invert` expands them.

 The determinant is the product of the first row with the generalised cross product of the
 other three.  It is alternating and linear in every row; those two facts alone give the
 product rule, by collapsing one row of linear combinations at a time.
 */
module Determinants {
  import opened Vectors

  function Det3(a: real, b: real, c: real, d: real, e: real, f: real, g: real, h: real, i: real): real {
    a * (e * i - f * h) - b * (d * i - f * g) + c * (d * h - e * g)
  }

  /** The vector whose dot product with any `a` is the determinant of the rows a, b, c, d. */
  function Cross4(b: Vector4, c: Vector4, d: Vector4): Vector4 {
    Vector4(Det3(b.y, b.z, b.w, c.y, c.z, c.w, d.y, d.z, d.w),
            -Det3(b.x, b.z, b.w, c.x, c.z, c.w, d.x, d.z, d.w),
            Det3(b.x, b.y, b.w, c.x, c.y, c.w, d.x, d.y, d.w),
            -Det3(b.x, b.y, b.z, c.x, c.y, c.z, d.x, d.y, d.z))
  }

  function Det4(a: Vector4, b: Vector4, c: Vector4, d: Vector4): real {
    Dot4(a, Cross4(b, c, d))
  }

  /** The linear combination u.x*a + u.y*b + u.z*c + u.w*d. */
  function Combine(u: Vector4, a: Vector4, b: Vector4, c: Vector4, d: Vector4): Vector4 {
    Vector4(u.x * a.x + u.y * b.x + u.z * c.x + u.w * d.x,
            u.x * a.y + u.y * b.y + u.z * c.y + u.w * d.y,
            u.x * a.z + u.y * b.z + u.z * c.z + u.w * d.z,
            u.x * a.w + u.y * b.w + u.z * c.w + u.w * d.w)
  }

  /** The permutation sum: 24 signed products, one entry from each row and column. */
  function Leibniz(a: Vector4, b: Vector4, c: Vector4, d: Vector4): real {
    a.x * b.y * c.z * d.w - a.x * b.y * c.w * d.z - a.x * b.z * c.y * d.w + a.x * b.z * c.w * d.y
    + a.x * b.w * c.y * d.z - a.x * b.w * c.z * d.y
    - a.y * b.x * c.z * d.w + a.y * b.x * c.w * d.z + a.y * b.z * c.x * d.w - a.y * b.z * c.w * d.x
    - a.y * b.w * c.x * d.z + a.y * b.w * c.z * d.x
    + a.z * b.x * c.y * d.w - a.z * b.x * c.w * d.y - a.z * b.y * c.x * d.w + a.z * b.y * c.w * d.x
    + a.z * b.w * c.x * d.y - a.z * b.w * c.y * d.x
    - a.w * b.x * c.y * d.z + a.w * b.x * c.z * d.y + a.w * b.y * c.x * d.z - a.w * b.y * c.z * d.x
    - a.w * b.z * c.x * d.y + a.w * b.z * c.y * d.x
  }

  lemma Det4IsLeibniz(a: Vector4, b: Vector4, c: Vector4, d: Vector4)
    ensures Det4(a, b, c, d) == Leibniz(a, b, c, d)
  {
  }

  // ----- alternating

  lemma SwapFirst(a: Vector4, b: Vector4, c: Vector4, d: Vector4)
    ensures Det4(b, a, c, d) == -Det4(a, b, c, d)
  {
    Det4IsLeibniz(a, b, c, d);
    Det4IsLeibniz(b, a, c, d);
  }

  lemma SwapMiddle(a: Vector4, b: Vector4, c: Vector4, d: Vector4)
    ensures Det4(a, c, b, d) == -Det4(a, b, c, d)
  {
  }

  lemma SwapLast(a: Vector4, b: Vector4, c: Vector4, d: Vector4)
    ensures Det4(a, b, d, c) == -Det4(a, b, c, d)
  {
  }

  /** A repeated row makes the determinant vanish, wherever the two copies stand. */
  lemma RepeatedRow(a: Vector4, b: Vector4, c: Vector4)
    ensures Det4(a, a, b, c) == 0.0
    ensures Det4(a, b, a, c) == 0.0
    ensures Det4(a, b, c, a) == 0.0
    ensures Det4(b, a, a, c) == 0.0
    ensures Det4(b, a, c, a) == 0.0
    ensures Det4(b, c, a, a) == 0.0
  {
    SwapFirst(a, a, b, c);
    SwapMiddle(a, b, a, c);
    SwapLast(a, b, a, c);
    SwapMiddle(b, a, a, c);
    SwapLast(b, a, a, c);
    SwapLast(b, c, a, a);
  }

  // ----- linear in each row

  lemma LinearFirst(u: Vector4, a: Vector4, b: Vector4, c: Vector4, d: Vector4, p: Vector4, q: Vector4, r: Vector4)
    ensures Det4(Combine(u, a, b, c, d), p, q, r)
         == u.x * Det4(a, p, q, r) + u.y * Det4(b, p, q, r) + u.z * Det4(c, p, q, r) + u.w * Det4(d, p, q, r)
  {
  }

  lemma LinearSecond(u: Vector4, a: Vector4, b: Vector4, c: Vector4, d: Vector4, p: Vector4, q: Vector4, r: Vector4)
    ensures Det4(p, Combine(u, a, b, c, d), q, r)
         == u.x * Det4(p, a, q, r) + u.y * Det4(p, b, q, r) + u.z * Det4(p, c, q, r) + u.w * Det4(p, d, q, r)
  {
    LinearFirst(u, a, b, c, d, p, q, r);
    SwapFirst(Combine(u, a, b, c, d), p, q, r);
    SwapFirst(a, p, q, r);
    SwapFirst(b, p, q, r);
    SwapFirst(c, p, q, r);
    SwapFirst(d, p, q, r);
  }

  lemma LinearThird(u: Vector4, a: Vector4, b: Vector4, c: Vector4, d: Vector4, p: Vector4, q: Vector4, r: Vector4)
    ensures Det4(p, q, Combine(u, a, b, c, d), r)
         == u.x * Det4(p, q, a, r) + u.y * Det4(p, q, b, r) + u.z * Det4(p, q, c, r) + u.w * Det4(p, q, d, r)
  {
    LinearSecond(u, a, b, c, d, p, q, r);
    SwapMiddle(p, Combine(u, a, b, c, d), q, r);
    SwapMiddle(p, a, q, r);
    SwapMiddle(p, b, q, r);
    SwapMiddle(p, c, q, r);
    SwapMiddle(p, d, q, r);
  }

  lemma LinearFourth(u: Vector4, a: Vector4, b: Vector4, c: Vector4, d: Vector4, p: Vector4, q: Vector4, r: Vector4)
    ensures Det4(p, q, r, Combine(u, a, b, c, d))
         == u.x * Det4(p, q, r, a) + u.y * Det4(p, q, r, b) + u.z * Det4(p, q, r, c) + u.w * Det4(p, q, r, d)
  {
    LinearThird(u, a, b, c, d, p, q, r);
    SwapLast(p, q, Combine(u, a, b, c, d), r);
    SwapLast(p, q, a, r);
    SwapLast(p, q, b, r);
    SwapLast(p, q, c, r);
    SwapLast(p, q, d, r);
  }

  // ----- the product rule, collapsing the rows from the last to the first

  /** Exchanging two neighbouring coefficients together with their vectors changes nothing. */
  lemma CombineSwapped(u: Vector4, a: Vector4, b: Vector4, c: Vector4, d: Vector4)
    ensures Combine(u, a, b, c, d) == Combine(Vector4(u.y, u.x, u.z, u.w), b, a, c, d)
    ensures Combine(u, a, b, c, d) == Combine(Vector4(u.x, u.z, u.y, u.w), a, c, b, d)
    ensures Combine(u, a, b, c, d) == Combine(Vector4(u.x, u.y, u.w, u.z), a, b, d, c)
  {
  }

  lemma CombineReordered(u: Vector4, a: Vector4, b: Vector4, c: Vector4, d: Vector4)
    ensures Combine(u, a, b, c, d) == Combine(Vector4(u.z, u.x, u.y, u.w), c, a, b, d)
    ensures Combine(u, a, b, c, d) == Combine(Vector4(u.w, u.x, u.y, u.z), d, a, b, c)
    ensures Combine(u, a, b, c, d) == Combine(Vector4(u.x, u.w, u.y, u.z), a, d, b, c)
  {
    CombineSwapped(u, a, b, c, d);
    CombineSwapped(Vector4(u.x, u.z, u.y, u.w), a, c, b, d);
    CombineSwapped(Vector4(u.x, u.y, u.w, u.z), a, b, d, c);
    CombineSwapped(Vector4(u.x, u.w, u.y, u.z), a, d, b, c);
  }

  lemma CollapseFourth(a: Vector4, b: Vector4, c: Vector4, d: Vector4, t: Vector4)
    ensures Det4(a, b, c, Combine(t, a, b, c, d)) == t.w * Det4(a, b, c, d)
  {
    LinearFourth(t, a, b, c, d, a, b, c);
    RepeatedRow(a, b, c);
    RepeatedRow(b, a, c);
    RepeatedRow(c, a, b);
  }

  lemma CollapseThird(a: Vector4, b: Vector4, c: Vector4, d: Vector4, s: Vector4, t: Vector4)
    ensures Det4(a, b, Combine(s, a, b, c, d), Combine(t, a, b, c, d))
         == (s.z * t.w - s.w * t.z) * Det4(a, b, c, d)
  {
    var ct, k := Combine(t, a, b, c, d), Det4(a, b, c, d);
    assert Det4(a, b, a, ct) == 0.0 && Det4(a, b, b, ct) == 0.0 by {
      RepeatedRow(a, b, ct);
      RepeatedRow(b, a, ct);
    }
    assert Det4(a, b, c, ct) == t.w * k by { CollapseFourth(a, b, c, d, t); }
    assert Det4(a, b, d, ct) == t.z * -k by {
      CombineSwapped(t, a, b, c, d);
      CollapseFourth(a, b, d, c, Vector4(t.x, t.y, t.w, t.z));
      SwapLast(a, b, c, d);
    }
    LinearThird(s, a, b, c, d, a, b, ct);
    TwoTerms(s.z, s.w, t.w, t.z, k);
  }

  /** `CollapseThird` with c in second place. */
  lemma CollapseAfterAC(a: Vector4, b: Vector4, c: Vector4, d: Vector4, s: Vector4, t: Vector4)
    ensures Det4(a, c, Combine(s, a, b, c, d), Combine(t, a, b, c, d))
         == (s.y * t.w - s.w * t.y) * -Det4(a, b, c, d)
  {
    CombineSwapped(s, a, b, c, d);
    CombineSwapped(t, a, b, c, d);
    CollapseThird(a, c, b, d, Vector4(s.x, s.z, s.y, s.w), Vector4(t.x, t.z, t.y, t.w));
    assert Det4(a, c, b, d) == -Det4(a, b, c, d) by { SwapMiddle(a, b, c, d); }
  }

  /** `CollapseThird` with d in second place. */
  lemma CollapseAfterAD(a: Vector4, b: Vector4, c: Vector4, d: Vector4, s: Vector4, t: Vector4)
    ensures Det4(a, d, Combine(s, a, b, c, d), Combine(t, a, b, c, d))
         == (s.y * t.z - s.z * t.y) * Det4(a, b, c, d)
  {
    CombineReordered(s, a, b, c, d);
    CombineReordered(t, a, b, c, d);
    CollapseThird(a, d, b, c, Vector4(s.x, s.w, s.y, s.z), Vector4(t.x, t.w, t.y, t.z));
    assert Det4(a, d, b, c) == Det4(a, b, c, d) by {
      SwapMiddle(a, b, d, c);
      SwapLast(a, b, c, d);
    }
  }

  lemma CollapseSecond(a: Vector4, b: Vector4, c: Vector4, d: Vector4, v: Vector4, s: Vector4, t: Vector4)
    ensures Det4(a, Combine(v, a, b, c, d), Combine(s, a, b, c, d), Combine(t, a, b, c, d))
         == Det3(v.y, v.z, v.w, s.y, s.z, s.w, t.y, t.z, t.w) * Det4(a, b, c, d)
  {
    var cs, ct, k := Combine(s, a, b, c, d), Combine(t, a, b, c, d), Det4(a, b, c, d);
    RepeatedRow(a, cs, ct);
    CollapseThird(a, b, c, d, s, t);
    CollapseAfterAC(a, b, c, d, s, t);
    CollapseAfterAD(a, b, c, d, s, t);
    LinearSecond(v, a, b, c, d, a, cs, ct);
    ThreeTerms(v.y, v.z, v.w, s.z * t.w - s.w * t.z, s.y * t.w - s.w * t.y, s.y * t.z - s.z * t.y, k);
  }

  /** `CollapseSecond` with b in front. */
  lemma CollapseAfterB(a: Vector4, b: Vector4, c: Vector4, d: Vector4, v: Vector4, s: Vector4, t: Vector4)
    ensures Det4(b, Combine(v, a, b, c, d), Combine(s, a, b, c, d), Combine(t, a, b, c, d))
         == Det3(v.x, v.z, v.w, s.x, s.z, s.w, t.x, t.z, t.w) * -Det4(a, b, c, d)
  {
    CombineSwapped(v, a, b, c, d);
    CombineSwapped(s, a, b, c, d);
    CombineSwapped(t, a, b, c, d);
    CollapseSecond(b, a, c, d, Vector4(v.y, v.x, v.z, v.w), Vector4(s.y, s.x, s.z, s.w), Vector4(t.y, t.x, t.z, t.w));
    assert Det4(b, a, c, d) == -Det4(a, b, c, d) by { SwapFirst(a, b, c, d); }
  }

  /** `CollapseSecond` with c in front. */
  lemma CollapseAfterC(a: Vector4, b: Vector4, c: Vector4, d: Vector4, v: Vector4, s: Vector4, t: Vector4)
    ensures Det4(c, Combine(v, a, b, c, d), Combine(s, a, b, c, d), Combine(t, a, b, c, d))
         == Det3(v.x, v.y, v.w, s.x, s.y, s.w, t.x, t.y, t.w) * Det4(a, b, c, d)
  {
    CombineReordered(v, a, b, c, d);
    CombineReordered(s, a, b, c, d);
    CombineReordered(t, a, b, c, d);
    CollapseSecond(c, a, b, d, Vector4(v.z, v.x, v.y, v.w), Vector4(s.z, s.x, s.y, s.w), Vector4(t.z, t.x, t.y, t.w));
    assert Det4(c, a, b, d) == Det4(a, b, c, d) by {
      SwapFirst(a, c, b, d);
      SwapMiddle(a, b, c, d);
    }
  }

  /** `CollapseSecond` with d in front. */
  lemma CollapseAfterD(a: Vector4, b: Vector4, c: Vector4, d: Vector4, v: Vector4, s: Vector4, t: Vector4)
    ensures Det4(d, Combine(v, a, b, c, d), Combine(s, a, b, c, d), Combine(t, a, b, c, d))
         == Det3(v.x, v.y, v.z, s.x, s.y, s.z, t.x, t.y, t.z) * -Det4(a, b, c, d)
  {
    CombineReordered(v, a, b, c, d);
    CombineReordered(s, a, b, c, d);
    CombineReordered(t, a, b, c, d);
    CollapseSecond(d, a, b, c, Vector4(v.w, v.x, v.y, v.z), Vector4(s.w, s.x, s.y, s.z), Vector4(t.w, t.x, t.y, t.z));
    assert Det4(d, a, b, c) == -Det4(a, b, c, d) by {
      SwapFirst(a, d, b, c);
      SwapMiddle(a, b, d, c);
      SwapLast(a, b, c, d);
    }
  }

  lemma TwoTerms(x: real, y: real, p: real, q: real, k: real)
    ensures x * (p * k) + y * (q * -k) == (x * p - y * q) * k
  {
  }

  lemma ThreeTerms(x: real, y: real, z: real, p: real, q: real, r: real, k: real)
    ensures x * (p * k) + y * (q * -k) + z * (r * k) == (x * p - y * q + z * r) * k
  {
  }

  lemma FourTerms(x: real, y: real, z: real, w: real, p: real, q: real, r: real, s: real, k: real)
    ensures x * (p * k) + y * (q * -k) + z * (r * k) + w * (s * -k) == (x * p + y * -q + z * r + w * -s) * k
  {
    TwoTerms(x, y, p, q, k);
    TwoTerms(z, w, r, s, k);
    SumTimes(x * p - y * q, z * r - w * s, k);
  }

  lemma SumTimes(a: real, b: real, k: real)
    ensures a * k + b * k == (a + b) * k
  {
  }

  /** The determinant of a product of row matrices is the product of the determinants. */
  lemma ProductRule(u: Vector4, v: Vector4, s: Vector4, t: Vector4, a: Vector4, b: Vector4, c: Vector4, d: Vector4)
    ensures Det4(Combine(u, a, b, c, d), Combine(v, a, b, c, d), Combine(s, a, b, c, d), Combine(t, a, b, c, d))
         == Det4(u, v, s, t) * Det4(a, b, c, d)
  {
    LinearFirst(u, a, b, c, d, Combine(v, a, b, c, d), Combine(s, a, b, c, d), Combine(t, a, b, c, d));
    CollapseSecond(a, b, c, d, v, s, t);
    CollapseAfterB(a, b, c, d, v, s, t);
    CollapseAfterC(a, b, c, d, v, s, t);
    CollapseAfterD(a, b, c, d, v, s, t);
    FourTerms(u.x, u.y, u.z, u.w,
              Det3(v.y, v.z, v.w, s.y, s.z, s.w, t.y, t.z, t.w),
              Det3(v.x, v.z, v.w, s.x, s.z, s.w, t.x, t.z, t.w),
              Det3(v.x, v.y, v.w, s.x, s.y, s.w, t.x, t.y, t.w),
              Det3(v.x, v.y, v.z, s.x, s.y, s.z, t.x, t.y, t.z), Det4(a, b, c, d));
  }
}
