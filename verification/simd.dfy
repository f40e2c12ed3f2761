/** Lane-wise semantics of the portable SIMD vectors the rasterizer is written
    against: a `Simd<T, N>` is a length-N sequence, a `Mask<_, N>` a length-N
    sequence of booleans, and every arithmetic, bitwise and comparison
    operator acts on each lane independently. */
module Simd {
  import Num

  type Lanes = seq<int>
  type LaneMask = seq<bool>

  /** The lane counts `LaneCount<N>: SupportedLaneCount` admits. */
  predicate SupportedLaneCount(n: nat)
  {
    n == 1 || n == 2 || n == 4 || n == 8 || n == 16 || n == 32 || n == 64
  }

  /** `Simd::from_slice(&[v; N])`: every lane holds `v`. */
  function Splat(n: nat, v: int): (r: Lanes)
    ensures |r| == n && forall j :: 0 <= j < n ==> r[j] == v
  {
    seq(n, _ => v)
  }

  /** `[0, 1, ..., N-1]`. */
  function Iota(n: nat): (r: Lanes)
    ensures |r| == n && forall j :: 0 <= j < n ==> r[j] == j
  {
    seq(n, j => j)
  }

  function Add(a: Lanes, b: Lanes): (r: Lanes)
    requires |a| == |b|
    ensures |r| == |a| && forall j :: 0 <= j < |a| ==> r[j] == a[j] + b[j]
  {
    seq(|a|, j requires 0 <= j < |a| => a[j] + b[j])
  }

  function Sub(a: Lanes, b: Lanes): (r: Lanes)
    requires |a| == |b|
    ensures |r| == |a| && forall j :: 0 <= j < |a| ==> r[j] == a[j] - b[j]
  {
    seq(|a|, j requires 0 <= j < |a| => a[j] - b[j])
  }

  function Mul(a: Lanes, b: Lanes): (r: Lanes)
    requires |a| == |b|
    ensures |r| == |a| && forall j :: 0 <= j < |a| ==> r[j] == a[j] * b[j]
  {
    seq(|a|, j requires 0 <= j < |a| => a[j] * b[j])
  }

  function Neg(a: Lanes): (r: Lanes)
    ensures |r| == |a| && forall j :: 0 <= j < |a| ==> r[j] == -a[j]
  {
    seq(|a|, j requires 0 <= j < |a| => -a[j])
  }

  function Or(a: Lanes, b: Lanes): (r: Lanes)
    requires |a| == |b|
    ensures |r| == |a| && forall j :: 0 <= j < |a| ==> r[j] == Num.BitOr(a[j], b[j])
  {
    seq(|a|, j requires 0 <= j < |a| => Num.BitOr(a[j], b[j]))
  }

  /** Integer `/` on vectors: truncating, lane by lane. */
  function Div(a: Lanes, b: Lanes): (r: Lanes)
    requires |a| == |b| && forall j :: 0 <= j < |b| ==> b[j] != 0
    ensures |r| == |a| && forall j :: 0 <= j < |a| ==> r[j] == Num.TruncDiv(a[j], b[j])
  {
    seq(|a|, j requires 0 <= j < |a| => Num.TruncDiv(a[j], b[j]))
  }

  /** Integer `%` on vectors: truncating, lane by lane. */
  function Rem(a: Lanes, b: Lanes): (r: Lanes)
    requires |a| == |b| && forall j :: 0 <= j < |b| ==> b[j] != 0
    ensures |r| == |a| && forall j :: 0 <= j < |a| ==> r[j] == Num.TruncRem(a[j], b[j])
  {
    seq(|a|, j requires 0 <= j < |a| => Num.TruncRem(a[j], b[j]))
  }

  /** `simd_ge`. */
  function Ge(a: Lanes, b: Lanes): (r: LaneMask)
    requires |a| == |b|
    ensures |r| == |a| && forall j :: 0 <= j < |a| ==> (r[j] <==> a[j] >= b[j])
  {
    seq(|a|, j requires 0 <= j < |a| => a[j] >= b[j])
  }

  /** `&` on masks. */
  function And(a: LaneMask, b: LaneMask): (r: LaneMask)
    requires |a| == |b|
    ensures |r| == |a| && forall j :: 0 <= j < |a| ==> (r[j] <==> a[j] && b[j])
  {
    seq(|a|, j requires 0 <= j < |a| => a[j] && b[j])
  }

  /** `Mask::any`. */
  predicate Any(m: LaneMask)
  {
    exists j :: 0 <= j < |m| && m[j]
  }
}
