/** Division with remainder, as row-major indexing uses it. */
module RowMajor {

  lemma MulAtLeast(a: nat, d: nat)
    requires a >= 1
    ensures a * d >= d
  {
    assert (a - 1) * d >= 0;
  }

  lemma QuotientUnique(q: int, r: int, e: int, f: int, d: nat)
    requires q * d + r == e * d + f
    requires 0 <= r < d && 0 <= f < d
    ensures q == e && r == f
  {
    assert (e - q) * d == r - f;
    if e > q {
      MulAtLeast(e - q, d);
    } else if q > e {
      MulAtLeast(q - e, d);
    }
  }

  /** Row q, column r of a table with d columns: the position gives both back. */
  lemma DivMod(q: int, d: nat, r: int)
    requires 0 <= r < d
    ensures (q * d + r) / d == q && (q * d + r) % d == r
  {
    var a := q * d + r;
    QuotientUnique(q, r, a / d, a % d, d);
  }

  lemma MulMonotone(p: nat, e: nat, d: nat)
    requires p <= e
    ensures p * d <= e * d
  {
    assert (e - p) * d >= 0;
  }

  lemma RowsBelow(i: nat, p: nat, d: nat)
    requires i < p
    ensures i * d + d <= p * d
  {
    MulMonotone(i + 1, p, d);
    assert (i + 1) * d == i * d + d;
  }

  lemma QuotientBelow(v: nat, p: nat, d: nat)
    requires d > 0 && v < p * d
    ensures v / d < p
    ensures v / d * d + v % d == v
  {
    var e, f := v / d, v % d;
    assert v == e * d + f;
    if p <= e {
      MulMonotone(p, e, d);
    }
  }
}
