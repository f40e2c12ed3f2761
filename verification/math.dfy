/** Vectors, the numeric identity constants and the Cartesian-to-barycentric
    conversion of `hedra/src/math.rs`, over mathematical integers. */
module Math {
  import opened Num
  import Simd

  datatype Vec2<T> = Vec2(x: T, y: T)

  datatype Vec3<T> = Vec3(x: T, y: T, z: T)

  /** `Zero::ZERO` and `One::ONE` for the integer types. */
  const ZERO: int := 0
  const ONE: int := 1

  /** `Zero::ZERO` for `Simd<T, N>`: every lane is zero. */
  function SimdZero(n: nat): (r: Simd.Lanes)
    ensures |r| == n && forall j :: 0 <= j < n ==> r[j] == ZERO
  {
    Simd.Splat(n, ZERO)
  }

  /** `One::ONE` for `Simd<T, N>`: every lane is one. */
  function SimdOne(n: nat): (r: Simd.Lanes)
    ensures |r| == n && forall j :: 0 <= j < n ==> r[j] == ONE
  {
    Simd.Splat(n, ONE)
  }

  /** The dividend of the first barycentric coordinate. */
  function L1Dividend(p: Vec2<int>, v1: Vec2<int>, v2: Vec2<int>, v3: Vec2<int>): int
  {
    (v2.y - v3.y) * (p.x - v3.x) + (v3.x - v2.x) * (p.y - v3.y)
  }

  /** The dividend of the second barycentric coordinate. */
  function L2Dividend(p: Vec2<int>, v1: Vec2<int>, v2: Vec2<int>, v3: Vec2<int>): int
  {
    (v3.y - v1.y) * (p.x - v3.x) + (v1.x - v3.x) * (p.y - v3.y)
  }

  /** The shared divisor: twice the signed area of the triangle. */
  function Divisor(v1: Vec2<int>, v2: Vec2<int>, v3: Vec2<int>): int
  {
    (v2.y - v3.y) * (v1.x - v3.x) + (v3.x - v2.x) * (v1.y - v3.y)
  }

  /** The three vertices lie on one line: v1 - v3 and v2 - v3 are parallel. */
  predicate Collinear(v1: Vec2<int>, v2: Vec2<int>, v3: Vec2<int>)
  {
    (v1.x - v3.x) * (v2.y - v3.y) == (v1.y - v3.y) * (v2.x - v3.x)
  }

  /** `Vec2::to_barycentric`: integer division panics on a zero divisor, so the
      caller must pass a non-degenerate triangle. */
  function ToBarycentric(p: Vec2<int>, v1: Vec2<int>, v2: Vec2<int>, v3: Vec2<int>): (r: Vec3<int>)
    requires Divisor(v1, v2, v3) != 0
    ensures r.x + r.y + r.z == ONE
  {
    var divisor := Divisor(v1, v2, v3);
    var l1 := TruncDiv(L1Dividend(p, v1, v2, v3), divisor);
    var l2 := TruncDiv(L2Dividend(p, v1, v2, v3), divisor);
    Vec3(l1, l2, ONE - l1 - l2)
  }

  /** The divisor vanishes exactly for collinear vertices, which is when
      `to_barycentric` cannot be called. */
  lemma DivisorZeroIffCollinear(v1: Vec2<int>, v2: Vec2<int>, v3: Vec2<int>)
    ensures Divisor(v1, v2, v3) == 0 <==> Collinear(v1, v2, v3)
  {
    assert Divisor(v1, v2, v3)
      == (v1.x - v3.x) * (v2.y - v3.y) - (v1.y - v3.y) * (v2.x - v3.x);
  }

  /** The first two coordinates are the quotients of their dividends by the
      divisor rounded toward zero: the remainder left over is smaller than the
      divisor and has the sign of the dividend. */
  lemma BarycentricTruncates(p: Vec2<int>, v1: Vec2<int>, v2: Vec2<int>, v3: Vec2<int>)
    requires Divisor(v1, v2, v3) != 0
    ensures var d, r := Divisor(v1, v2, v3), ToBarycentric(p, v1, v2, v3);
            var n1, n2 := L1Dividend(p, v1, v2, v3), L2Dividend(p, v1, v2, v3);
            && (-d < n1 - d * r.x < d || d < n1 - d * r.x < -d)
            && (n1 >= 0 ==> n1 - d * r.x >= 0) && (n1 <= 0 ==> n1 - d * r.x <= 0)
            && (-d < n2 - d * r.y < d || d < n2 - d * r.y < -d)
            && (n2 >= 0 ==> n2 - d * r.y >= 0) && (n2 <= 0 ==> n2 - d * r.y <= 0)
  {
    var d := Divisor(v1, v2, v3);
    TruncDivRem(L1Dividend(p, v1, v2, v3), d);
    TruncDivRem(L2Dividend(p, v1, v2, v3), d);
  }

  /** At the vertices the coordinates are the unit vectors. */
  lemma BarycentricAtVertices(v1: Vec2<int>, v2: Vec2<int>, v3: Vec2<int>)
    requires Divisor(v1, v2, v3) != 0
    ensures ToBarycentric(v1, v1, v2, v3) == Vec3(ONE, ZERO, ZERO)
    ensures ToBarycentric(v2, v1, v2, v3) == Vec3(ZERO, ONE, ZERO)
    ensures ToBarycentric(v3, v1, v2, v3) == Vec3(ZERO, ZERO, ONE)
  {
    var d := Divisor(v1, v2, v3);
    assert L1Dividend(v1, v1, v2, v3) == d;
    assert L2Dividend(v1, v1, v2, v3) == 0;
    assert L1Dividend(v2, v1, v2, v3) == 0;
    assert L2Dividend(v2, v1, v2, v3) == d;
    assert L1Dividend(v3, v1, v2, v3) == 0 && L2Dividend(v3, v1, v2, v3) == 0;
    TruncDivRem(d, d);
    TruncDivRem(0, d);
  }
}
