/** The struct `Matrix4` of util/Matrix.h: sixteen numbers stored column by column, updated in place. */
module MatrixStorage {
  import opened Vectors
  import opened Matrices

  /** The matrix sixteen numbers stand for: entry (row, column) is d[4 * column + row]. */
  function Load(d: seq<real>): Mat4
    requires |d| == 16
  {
    Mat4(d[0], d[4], d[8], d[12],
         d[1], d[5], d[9], d[13],
         d[2], d[6], d[10], d[14],
         d[3], d[7], d[11], d[15])
  }

  lemma LoadScaled(s: seq<real>, t: seq<real>, k: real)
    requires |s| == |t| == 16
    requires forall i :: 0 <= i < 16 ==> t[i] == Times(s[i], k)
    ensures Load(t) == Scaled(Load(s), k)
  {
    hide Times;
  }

  class Matrix4 {
    const data: array<real>

    ghost predicate Valid() {
      data.Length == 16
    }

    ghost function Value(): Mat4
      requires Valid()
      reads data
    {
      Load(data[..])
    }

    constructor (m00: real, m01: real, m02: real, m03: real,
                m10: real, m11: real, m12: real, m13: real,
                m20: real, m21: real, m22: real, m23: real,
                m30: real, m31: real, m32: real, m33: real)
      ensures Valid() && fresh(data)
      ensures Value() == Mat4(m00, m01, m02, m03, m10, m11, m12, m13, m20, m21, m22, m23, m30, m31, m32, m33)
    {
      data := new real[16];
      new;
      data[0] := m00;
      data[4] := m01;
      data[8] := m02;
      data[12] := m03;
      data[1] := m10;
      data[5] := m11;
      data[9] := m12;
      data[13] := m13;
      data[2] := m20;
      data[6] := m21;
      data[10] := m22;
      data[14] := m23;
      data[3] := m30;
      data[7] := m31;
      data[11] := m32;
      data[15] := m33;
    }

    constructor Copy(other: Matrix4)
      requires other.Valid()
      ensures Valid() && fresh(data) && Value() == other.Value()
    {
      data := new real[16](i requires 0 <= i < 16 reads other.data => other.data[i]);
      new;
      assert data[..] == other.data[..];
    }

    static method Identity() returns (r: Matrix4)
      ensures r.Valid() && fresh(r) && fresh(r.data)
      ensures r.Value() == IDENTITY
    {
      r := new Matrix4(1.0, 0.0, 0.0, 0.0, 0.0, 1.0, 0.0, 0.0, 0.0, 0.0, 1.0, 0.0, 0.0, 0.0, 0.0, 1.0);
    }

    static method Transposed(mat: Matrix4) returns (r: Matrix4)
      requires mat.Valid()
      ensures r.Valid() && fresh(r) && fresh(r.data)
      ensures r.Value() == Transpose(mat.Value())
    {
      var d := mat.data;
      r := new Matrix4(d[0], d[1], d[2], d[3], d[4], d[5], d[6], d[7],
                       d[8], d[9], d[10], d[11], d[12], d[13], d[14], d[15]);
    }

    static method Times(left: Matrix4, right: Matrix4) returns (r: Matrix4)
      requires left.Valid() && right.Valid()
      ensures r.Valid() && fresh(r) && fresh(r.data)
      ensures r.Value() == Mul(left.Value(), right.Value())
    {
      var c := TimesRow0(left, right);
      var d := TimesRow1(left, right);
      var e := TimesRow2(left, right);
      var f := TimesRow3(left, right);
      hide Mul;
      r := new Matrix4(c.x, c.y, c.z, c.w, d.x, d.y, d.z, d.w, e.x, e.y, e.z, e.w, f.x, f.y, f.z, f.w);
    }

    static method TimesRow0(left: Matrix4, right: Matrix4) returns (r: Vector4)
      requires left.Valid() && right.Valid()
      ensures r == Row0(Mul(left.Value(), right.Value()))
    {
      var a, b := left.data, right.data;
      r := Vector4(a[0] * b[0] + a[4] * b[1] + a[8] * b[2] + a[12] * b[3],
                   a[0] * b[4] + a[4] * b[5] + a[8] * b[6] + a[12] * b[7],
                   a[0] * b[8] + a[4] * b[9] + a[8] * b[10] + a[12] * b[11],
                   a[0] * b[12] + a[4] * b[13] + a[8] * b[14] + a[12] * b[15]);
    }

    static method TimesRow1(left: Matrix4, right: Matrix4) returns (r: Vector4)
      requires left.Valid() && right.Valid()
      ensures r == Row1(Mul(left.Value(), right.Value()))
    {
      var a, b := left.data, right.data;
      r := Vector4(a[1] * b[0] + a[5] * b[1] + a[9] * b[2] + a[13] * b[3],
                   a[1] * b[4] + a[5] * b[5] + a[9] * b[6] + a[13] * b[7],
                   a[1] * b[8] + a[5] * b[9] + a[9] * b[10] + a[13] * b[11],
                   a[1] * b[12] + a[5] * b[13] + a[9] * b[14] + a[13] * b[15]);
    }

    static method TimesRow2(left: Matrix4, right: Matrix4) returns (r: Vector4)
      requires left.Valid() && right.Valid()
      ensures r == Row2(Mul(left.Value(), right.Value()))
    {
      var a, b := left.data, right.data;
      r := Vector4(a[2] * b[0] + a[6] * b[1] + a[10] * b[2] + a[14] * b[3],
                   a[2] * b[4] + a[6] * b[5] + a[10] * b[6] + a[14] * b[7],
                   a[2] * b[8] + a[6] * b[9] + a[10] * b[10] + a[14] * b[11],
                   a[2] * b[12] + a[6] * b[13] + a[10] * b[14] + a[14] * b[15]);
    }

    static method TimesRow3(left: Matrix4, right: Matrix4) returns (r: Vector4)
      requires left.Valid() && right.Valid()
      ensures r == Row3(Mul(left.Value(), right.Value()))
    {
      var a, b := left.data, right.data;
      r := Vector4(a[3] * b[0] + a[7] * b[1] + a[11] * b[2] + a[15] * b[3],
                   a[3] * b[4] + a[7] * b[5] + a[11] * b[6] + a[15] * b[7],
                   a[3] * b[8] + a[7] * b[9] + a[11] * b[10] + a[15] * b[11],
                   a[3] * b[12] + a[7] * b[13] + a[11] * b[14] + a[15] * b[15]);
    }

    /** `a *= b`: also right when `b` is this very matrix. */
    method TimesInPlace(b: Matrix4)
      requires Valid() && b.Valid()
      modifies data
      ensures Value() == Mul(old(Value()), old(b.Value()))
    {
      var product := Times(this, b);
      for i := 0 to 16
        modifies data
        invariant forall k :: 0 <= k < i ==> data[k] == product.data[k]
      {
        data[i] := product.data[i];
      }
      assert data[..] == product.data[..];
    }

    static method TimesVector(m: Matrix4, b: Vector4) returns (r: Vector4)
      requires m.Valid()
      ensures r == Apply(m.Value(), b)
    {
      var a := m.data;
      r := Vector4(a[0] * b.x + a[4] * b.y + a[8] * b.z + a[12] * b.w,
                   a[1] * b.x + a[5] * b.y + a[9] * b.z + a[13] * b.w,
                   a[2] * b.x + a[6] * b.y + a[10] * b.z + a[14] * b.w,
                   a[3] * b.x + a[7] * b.y + a[11] * b.z + a[15] * b.w);
    }

    method ScaleInPlace(b: real)
      requires Valid()
      modifies data
      ensures Value() == Scaled(old(Value()), b)
    {
      ghost var was := data[..];
      for i := 0 to 16
        invariant forall k :: 0 <= k < i ==> data[k] == was[k] * b
        invariant forall k :: i <= k < 16 ==> data[k] == was[k]
      {
        data[i] := data[i] * b;
      }
      LoadScaled(was, data[..], b);
    }

    static method ScaledCopy(a: Matrix4, b: real) returns (r: Matrix4)
      requires a.Valid()
      ensures r.Valid() && fresh(r) && fresh(r.data)
      ensures r.Value() == Scaled(a.Value(), b)
    {
      r := new Matrix4.Copy(a);
      r.ScaleInPlace(b);
    }

    static method Equals(a: Matrix4, b: Matrix4) returns (equal: bool)
      requires a.Valid() && b.Valid()
      ensures equal <==> a.Value() == b.Value()
    {
      for i := 0 to 16
        invariant forall k :: 0 <= k < i ==> a.data[k] == b.data[k]
      {
        if a.data[i] != b.data[i] {
          return false;
        }
      }
      return true;
    }

    /** Cofactors, determinant along the first column, then rescale or fall back to the identity. */
    static method Invert(mat: Matrix4) returns (inverted: Matrix4)
      requires mat.Valid()
      ensures inverted.Valid() && fresh(inverted) && fresh(inverted.data)
      ensures inverted.Value() == Inverse(mat.Value())
    {
      hide Det, Adjugate, Scaled;
      ghost var m := mat.Value();
      inverted := Cofactors(mat);
      ghost var a := inverted.Value();
      var d, v := mat.data, inverted.data;
      var determinant := d[0] * v[0] + d[1] * v[4] + d[2] * v[8] + d[3] * v[12];
      assert determinant == m.m00 * a.m00 + m.m10 * a.m01 + m.m20 * a.m02 + m.m30 * a.m03;
      FirstColumnExpansion(m);
      assert determinant == Det(m);
      if determinant != 0.0 {
        inverted.ScaleInPlace(1.0 / determinant);
        assert inverted.Value() == Scaled(Adjugate(m), 1.0 / determinant);
      } else {
        inverted := Identity();
      }
    }

    /** The sixteen six-term polynomials of `invert`, row by row. */
    static method Cofactors(mat: Matrix4) returns (r: Matrix4)
      requires mat.Valid()
      ensures r.Valid() && fresh(r) && fresh(r.data)
      ensures r.Value() == Adjugate(mat.Value())
    {
      hide Adjugate;
      var a := CofactorRow0(mat);
      var b := CofactorRow1(mat);
      var c := CofactorRow2(mat);
      var d := CofactorRow3(mat);
      r := new Matrix4(a.x, a.y, a.z, a.w, b.x, b.y, b.z, b.w, c.x, c.y, c.z, c.w, d.x, d.y, d.z, d.w);
    }

    static method CofactorRow0(mat: Matrix4) returns (r: Vector4)
      requires mat.Valid()
      ensures r == Row0(Adjugate(mat.Value()))
    {
      hide Adjugate;
      AdjugateRow0(mat.Value());
      var d := mat.data;
      r := Vector4(d[5] * d[10] * d[15] - d[5] * d[11] * d[14] - d[9] * d[6] * d[15] + d[9] * d[7] * d[14]
                       + d[13] * d[6] * d[11] - d[13] * d[7] * d[10],
                   -d[4] * d[10] * d[15] + d[4] * d[11] * d[14] + d[8] * d[6] * d[15] - d[8] * d[7] * d[14]
                       - d[12] * d[6] * d[11] + d[12] * d[7] * d[10],
                   d[4] * d[9] * d[15] - d[4] * d[11] * d[13] - d[8] * d[5] * d[15] + d[8] * d[7] * d[13]
                       + d[12] * d[5] * d[11] - d[12] * d[7] * d[9],
                   -d[4] * d[9] * d[14] + d[4] * d[10] * d[13] + d[8] * d[5] * d[14] - d[8] * d[6] * d[13]
                       - d[12] * d[5] * d[10] + d[12] * d[6] * d[9]);
    }

    static method CofactorRow1(mat: Matrix4) returns (r: Vector4)
      requires mat.Valid()
      ensures r == Row1(Adjugate(mat.Value()))
    {
      hide Adjugate;
      AdjugateRow1(mat.Value());
      var d := mat.data;
      r := Vector4(-d[1] * d[10] * d[15] + d[1] * d[11] * d[14] + d[9] * d[2] * d[15] - d[9] * d[3] * d[14]
                       - d[13] * d[2] * d[11] + d[13] * d[3] * d[10],
                   d[0] * d[10] * d[15] - d[0] * d[11] * d[14] - d[8] * d[2] * d[15] + d[8] * d[3] * d[14]
                       + d[12] * d[2] * d[11] - d[12] * d[3] * d[10],
                   -d[0] * d[9] * d[15] + d[0] * d[11] * d[13] + d[8] * d[1] * d[15] - d[8] * d[3] * d[13]
                       - d[12] * d[1] * d[11] + d[12] * d[3] * d[9],
                   d[0] * d[9] * d[14] - d[0] * d[10] * d[13] - d[8] * d[1] * d[14] + d[8] * d[2] * d[13]
                       + d[12] * d[1] * d[10] - d[12] * d[2] * d[9]);
    }

    static method CofactorRow2(mat: Matrix4) returns (r: Vector4)
      requires mat.Valid()
      ensures r == Row2(Adjugate(mat.Value()))
    {
      hide Adjugate;
      AdjugateRow2(mat.Value());
      var d := mat.data;
      r := Vector4(d[1] * d[6] * d[15] - d[1] * d[7] * d[14] - d[5] * d[2] * d[15] + d[5] * d[3] * d[14]
                       + d[13] * d[2] * d[7] - d[13] * d[3] * d[6],
                   -d[0] * d[6] * d[15] + d[0] * d[7] * d[14] + d[4] * d[2] * d[15] - d[4] * d[3] * d[14]
                       - d[12] * d[2] * d[7] + d[12] * d[3] * d[6],
                   d[0] * d[5] * d[15] - d[0] * d[7] * d[13] - d[4] * d[1] * d[15] + d[4] * d[3] * d[13]
                       + d[12] * d[1] * d[7] - d[12] * d[3] * d[5],
                   -d[0] * d[5] * d[14] + d[0] * d[6] * d[13] + d[4] * d[1] * d[14] - d[4] * d[2] * d[13]
                       - d[12] * d[1] * d[6] + d[12] * d[2] * d[5]);
    }

    static method CofactorRow3(mat: Matrix4) returns (r: Vector4)
      requires mat.Valid()
      ensures r == Row3(Adjugate(mat.Value()))
    {
      hide Adjugate;
      AdjugateRow3(mat.Value());
      var d := mat.data;
      r := Vector4(-d[1] * d[6] * d[11] + d[1] * d[7] * d[10] + d[5] * d[2] * d[11] - d[5] * d[3] * d[10]
                       - d[9] * d[2] * d[7] + d[9] * d[3] * d[6],
                   d[0] * d[6] * d[11] - d[0] * d[7] * d[10] - d[4] * d[2] * d[11] + d[4] * d[3] * d[10]
                       + d[8] * d[2] * d[7] - d[8] * d[3] * d[6],
                   -d[0] * d[5] * d[11] + d[0] * d[7] * d[9] + d[4] * d[1] * d[11] - d[4] * d[3] * d[9]
                       - d[8] * d[1] * d[7] + d[8] * d[3] * d[5],
                   d[0] * d[5] * d[10] - d[0] * d[6] * d[9] - d[4] * d[1] * d[10] + d[4] * d[2] * d[9]
                       + d[8] * d[1] * d[6] - d[8] * d[2] * d[5]);
    }
  }
}
