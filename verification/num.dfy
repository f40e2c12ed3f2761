/** Rust primitive-integer semantics that the rasterizer relies on: the fixed-width
    integer ranges, `/` and `%` truncating toward zero, bitwise OR on signed
    two's-complement values and the wrapping `as i32` cast. */
module Num {

  const U32_MAX: int := 0xFFFF_FFFF
  const I32_MIN: int := -0x8000_0000
  const I32_MAX: int := 0x7FFF_FFFF

  type u32 = x: int | 0 <= x <= U32_MAX
  type i32 = x: int | I32_MIN <= x <= I32_MAX

  /** Rust's `/` on signed integers: the quotient rounded toward zero. */
  function TruncDiv(a: int, b: int): int
    requires b != 0
  {
    if a >= 0 then (if b > 0 then a / b else -(a / -b))
    else (if b > 0 then -((-a) / b) else (-a) / (-b))
  }

  /** Rust's `%` on signed integers: the remainder takes the sign of the dividend. */
  function TruncRem(a: int, b: int): int
    requires b != 0
  {
    a - b * TruncDiv(a, b)
  }

  /** The pair (TruncDiv, TruncRem) is the quotient and remainder of truncating
      division: it recombines to the dividend, the remainder is smaller than the
      divisor in magnitude and never has the opposite sign of the dividend. */
  lemma TruncDivRem(a: int, b: int)
    requires b != 0
    ensures a == b * TruncDiv(a, b) + TruncRem(a, b)
    ensures -b < TruncRem(a, b) < b || b < TruncRem(a, b) < -b
    ensures a >= 0 ==> TruncRem(a, b) >= 0
    ensures a <= 0 ==> TruncRem(a, b) <= 0
  {
    var q := TruncDiv(a, b);
    if a >= 0 && b > 0 {
      assert a == b * (a / b) + a % b;
    } else if a >= 0 {
      assert a == (-b) * (a / -b) + a % (-b);
      assert b * q == (-b) * (a / -b);
    } else if b > 0 {
      assert -a == b * ((-a) / b) + (-a) % b;
      assert b * q == -(b * ((-a) / b));
    } else {
      assert -a == (-b) * ((-a) / (-b)) + (-a) % (-b);
      assert b * q == -((-b) * ((-a) / (-b)));
    }
  }

  /** On a non-negative dividend and a positive divisor Rust's operators agree
      with Dafny's Euclidean ones. */
  lemma TruncMatchesEuclidean(a: int, b: int)
    requires a >= 0 && b > 0
    ensures TruncDiv(a, b) == a / b && TruncRem(a, b) == a % b
  {
    assert a == b * (a / b) + a % b;
  }

  /** The magnitude of a two's-complement integer: how far it is from the
      all-zeros (0) or all-ones (-1) bit pattern. */
  function Magnitude(a: int): nat
  {
    if a >= 0 then a else -a - 1
  }

  lemma HalveShrinks(a: int)
    ensures Magnitude(a / 2) <= Magnitude(a)
    ensures a != 0 && a != -1 ==> Magnitude(a / 2) < Magnitude(a)
  {
  }

  /** Bitwise OR of two signed integers in (unbounded) two's complement:
      the low bit is the OR of the low bits, the rest is the OR of the
      values shifted right arithmetically. Both 0 and -1 are fixed points
      of the shift and end the recursion. */
  function BitOr(a: int, b: int): int
    decreases Magnitude(a) + Magnitude(b)
  {
    if (a == 0 || a == -1) && (b == 0 || b == -1) then
      (if a == -1 || b == -1 then -1 else 0)
    else
      HalveShrinks(a);
      HalveShrinks(b);
      2 * BitOr(a / 2, b / 2) + (if a % 2 == 1 || b % 2 == 1 then 1 else 0)
  }

  /** The sign bit of an OR is set iff the sign bit of some operand is set. */
  lemma {:induction false} BitOrSign(a: int, b: int)
    ensures BitOr(a, b) < 0 <==> a < 0 || b < 0
    decreases Magnitude(a) + Magnitude(b)
  {
    if (a == 0 || a == -1) && (b == 0 || b == -1) {
    } else {
      HalveShrinks(a);
      HalveShrinks(b);
      BitOrSign(a / 2, b / 2);
    }
  }

  function Pow2(e: nat): nat
  {
    if e == 0 then 1 else 2 * Pow2(e - 1)
  }

  /** OR never leaves a width: two e-bit signed values OR to an e-bit signed
      value, so modelling the operands as unbounded integers loses nothing
      (for i32 take e = 31). */
  lemma {:induction false} BitOrInRange(a: int, b: int, e: nat)
    requires -(Pow2(e) as int) <= a < Pow2(e) && -(Pow2(e) as int) <= b < Pow2(e)
    ensures -(Pow2(e) as int) <= BitOr(a, b) < Pow2(e)
    decreases e
  {
    if (a == 0 || a == -1) && (b == 0 || b == -1) {
    } else if e == 0 {
      assert false;
    } else {
      BitOrInRange(a / 2, b / 2, e - 1);
    }
  }

  /** `v as i32` for a `u32` value: the bit pattern is kept, so values above
      `i32::MAX` wrap around to negative ones. */
  function AsI32(v: u32): (r: i32)
    ensures (v - r) % 0x1_0000_0000 == 0
    ensures v <= I32_MAX ==> r == v
    ensures v > I32_MAX ==> r < 0
  {
    if v <= I32_MAX then v else v - 0x1_0000_0000
  }

  lemma MulMonotone(w: nat, a: int, b: int)
    requires a <= b
    ensures w * a <= w * b
  {
    assert w * b - w * a == w * (b - a);
  }

  /** Euclidean division is determined by its defining equation: a quotient
      and a remainder below the divisor that recombine to the dividend are
      `/` and `%`. */
  lemma DivModUnique(a: nat, w: nat, q: nat, r: nat)
    requires w > 0 && a == w * q + r && r < w
    ensures a / w == q && a % w == r
  {
    var q', r' := a / w, a % w;
    if q' < q {
      MulMonotone(w, q' + 1, q);
    } else if q' > q {
      MulMonotone(w, q + 1, q');
    }
  }

  /** A column-major index `y + h * x` with `y < h` decodes back to row `y`
      and column `x`. */
  lemma ColumnMajorDecodes(x: nat, y: nat, h: nat)
    requires y < h
    ensures (y + h * x) % h == y && (y + h * x) / h == x
  {
    DivModUnique(y + h * x, h, x, y);
  }
}
