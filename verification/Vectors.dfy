/** Real-valued models of the fixed-size vectors of src/common/vector_utils.h. */
module Vectors {

  datatype Vector3 = Vector3(x: real, y: real, z: real)

  datatype Vector4 = Vector4(x: real, y: real, z: real, w: real)

  function Add3(a: Vector3, b: Vector3): Vector3 {
    Vector3(a.x + b.x, a.y + b.y, a.z + b.z)
  }

  function Sub3(a: Vector3, b: Vector3): Vector3 {
    Vector3(a.x - b.x, a.y - b.y, a.z - b.z)
  }

  function Scale3(a: Vector3, k: real): Vector3 {
    Vector3(a.x * k, a.y * k, a.z * k)
  }

  function Dot3(a: Vector3, b: Vector3): real {
    a.x * b.x + a.y * b.y + a.z * b.z
  }

  function Cross3(a: Vector3, b: Vector3): Vector3 {
    Vector3(a.y * b.z - a.z * b.y, a.z * b.x - a.x * b.z, a.x * b.y - a.y * b.x)
  }

  /** A named product, so that proofs about layout need not look into it. */
  function Times(a: real, k: real): real {
    a * k
  }

  function Scale4(a: Vector4, k: real): Vector4 {
    Vector4(Times(a.x, k), Times(a.y, k), Times(a.z, k), Times(a.w, k))
  }

  function Dot4(a: Vector4, b: Vector4): real {
    a.x * b.x + a.y * b.y + a.z * b.z + a.w * b.w
  }

  /** `length` is the value of `std::sqrt(lengthSquared())`: the non-negative root. */
  ghost predicate IsLength3(v: Vector3, length: real) {
    length >= 0.0 && length * length == Dot3(v, v)
  }

  ghost predicate IsLength4(v: Vector4, length: real) {
    length >= 0.0 && length * length == Dot4(v, v)
  }

  lemma SquareSign(a: real, m: real)
    requires m == a * a
    ensures m >= 0.0
    ensures m == 0.0 <==> a == 0.0
  {
    if a > 0.0 {
      assert m / a == a;
    } else if a < 0.0 {
      assert m / a == a;
    }
  }
}
