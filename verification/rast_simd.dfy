/** The lane-parallel part of the older revision (`hedra/src/rast/simd.rs`):
    the vector edge function, the triangle coverage mask and the body of the
    `simd_triangle_rasterizer!` macro, which marks covered positions of a
    frame with `u32::MAX`. */
module RastSimd {
  import opened Num
  import opened Simd
  import opened Rast

  /** The vector `edge`: the scalar edge function applied to vectors, with
      start `v1` and delta `v2 - v1`. */
  function EdgeLanes(x: Lanes, y: Lanes, v1: (Lanes, Lanes), v2: (Lanes, Lanes)): (r: Lanes)
    requires |y| == |x| && |v1.0| == |x| && |v1.1| == |x| && |v2.0| == |x| && |v2.1| == |x|
    ensures |r| == |x|
    ensures forall j :: 0 <= j < |x| ==>
              r[j] == Edge(x[j], y[j], v1.0[j], v1.1[j], v2.0[j] - v1.0[j], v2.1[j] - v1.1[j])
  {
    var dvx := Sub(v2.0, v1.0);
    var dvy := Sub(v2.1, v1.1);
    Sub(Mul(dvx, Sub(y, v1.1)), Mul(dvy, Sub(x, v1.0)))
  }

  /** A vertex broadcast to every lane. */
  function Broadcast(n: nat, v: Point<int>): (Lanes, Lanes)
  {
    (Splat(n, v.x), Splat(n, v.y))
  }

  /** (x, y) is inside or on the boundary of the triangle: all three edges
      v0 -> v1, v1 -> v2 and v2 -> v0 are non-negative there. */
  predicate Inside(x: int, y: int, tri: Tri3<int>)
  {
    EdgeOf(x, y, tri.v0, tri.v1) >= 0 && EdgeOf(x, y, tri.v1, tri.v2) >= 0 && EdgeOf(x, y, tri.v2, tri.v0) >= 0
  }

  /** `triangle_mask`: lane j tells whether (x[j], y[j]) is covered. */
  function TriangleMask(x: Lanes, y: Lanes, tri: Tri3<int>): (r: LaneMask)
    requires |x| == |y|
    ensures |r| == |x|
    ensures forall j :: 0 <= j < |x| ==> (r[j] <==> Inside(x[j], y[j], tri))
  {
    var n := |x|;
    var v0, v1, v2 := Broadcast(n, tri.v0), Broadcast(n, tri.v1), Broadcast(n, tri.v2);
    var edge1 := EdgeLanes(x, y, v0, v1);
    var edge2 := EdgeLanes(x, y, v1, v2);
    var edge3 := EdgeLanes(x, y, v2, v0);
    var zero := Splat(n, 0);
    And(And(Ge(edge1, zero), Ge(edge2, zero)), Ge(edge3, zero))
  }

  /** Lanes are independent: lane j is the mask of lane j alone. */
  lemma TriangleMaskLaneLocal(x: Lanes, y: Lanes, tri: Tri3<int>, j: nat)
    requires |x| == |y| && j < |x|
    ensures TriangleMask(x, y, tri)[j] == TriangleMask([x[j]], [y[j]], tri)[0]
  {
  }

  /** Rotating the vertices cyclically does not change the mask. */
  lemma TriangleMaskRotation(x: Lanes, y: Lanes, tri: Tri3<int>)
    requires |x| == |y|
    ensures TriangleMask(x, y, Tri3(tri.v1, tri.v2, tri.v0)) == TriangleMask(x, y, tri)
  {
  }

  /** The boundary counts as covered: a lane located at vertex v0 of a
      triangle whose opposite edge v1 -> v2 has v0 on its non-negative side
      is set. */
  lemma TriangleMaskCoversVertex(x: Lanes, y: Lanes, tri: Tri3<int>, j: nat)
    requires |x| == |y| && j < |x|
    requires x[j] == tri.v0.x && y[j] == tri.v0.y
    requires EdgeOf(tri.v0.x, tri.v0.y, tri.v1, tri.v2) >= 0
    ensures TriangleMask(x, y, tri)[j]
  {
    EdgeZeroAtEnds(tri.v0.x, tri.v0.y, tri.v1.x - tri.v0.x, tri.v1.y - tri.v0.y);
    EdgeZeroAtEnds(tri.v2.x, tri.v2.y, tri.v0.x - tri.v2.x, tri.v0.y - tri.v2.y);
  }

  /** The triangle as `[Point<i32>; 3]`, each vertex converted with `into()`. */
  function TriOf(t: Tri3<u32>): Tri3<int>
  {
    Tri3(PointFromPixel(t.v0), PointFromPixel(t.v1), PointFromPixel(t.v2))
  }

  function BlockWidth(b: Block): int
  {
    b.max.x - b.min.x
  }

  function BlockHeight(b: Block): int
  {
    b.max.y - b.min.y
  }

  /** The x vector of the macro: `[x, x+1, ..., x+N-1]`. */
  function XLanes(x: int, n: nat): (r: Lanes)
    ensures |r| == n && forall j :: 0 <= j < n ==> r[j] == x + j
  {
    Add(Splat(n, x), Iota(n))
  }

  /** The mask the macro computes for triangle t at scan index i: the x
      vector counts up from x = i % width and the y vector is filled with
      x as well. */
  function ScanMask(data: TriangleRasterizerData, n: nat, t: nat, i: nat): (r: LaneMask)
    requires t < |data.list| && BlockWidth(data.block) > 0
    ensures |r| == n
    ensures forall j :: 0 <= j < n ==>
              var x := i % BlockWidth(data.block);
              (r[j] <==> Inside(x + j, x, TriOf(data.list[t])))
  {
    var x := i % BlockWidth(data.block);
    TriangleMask(XLanes(x, n), Splat(n, x), TriOf(data.list[t]))
  }

  /** The buffer index written for scan index i: column-major, y + height * x,
      with the frame's height, so that while the row fits the frame's height
      the index decodes back to row `i / width` and column `i % width`. */
  function WriteIndex(data: TriangleRasterizerData, i: nat): (r: nat)
    requires BlockWidth(data.block) > 0
    ensures i / BlockWidth(data.block) < data.frame.height ==>
              r % data.frame.height == i / BlockWidth(data.block) && r / data.frame.height == i % BlockWidth(data.block)
  {
    var w := BlockWidth(data.block);
    var x, y := i % w, i / w;
    var r := y + data.frame.height * x;
    if y < data.frame.height then ColumnMajorDecodes(x, y, data.frame.height); r else r
  }

  /** Triangle t at scan index i has a covered lane. */
  predicate Hit(data: TriangleRasterizerData, n: nat, t: int, i: int)
  {
    var w, h := BlockWidth(data.block), BlockHeight(data.block);
    0 <= t < |data.list| && w > 0 && 0 <= i < w * h && Any(ScanMask(data, n, t, i))
  }

  /** Some hit writes buffer cell k. */
  ghost predicate HitCell(data: TriangleRasterizerData, n: nat, k: int)
  {
    exists t, i :: Hit(data, n, t, i) && WriteIndex(data, i) == k
  }

  /** Every hit writes inside the buffer. */
  ghost predicate AllHitsInBounds(data: TriangleRasterizerData, n: nat)
  {
    forall t, i :: Hit(data, n, t, i) ==> WriteIndex(data, i) < data.frame.dst.Length
  }

  /** The `simd_triangle_rasterizer!` body. It returns false where the macro
      panics on an index outside the frame; the buffer then holds the writes
      made before that point. */
  method SimdTriangleRasterizer(data: TriangleRasterizerData, lanes: nat) returns (ok: bool)
    requires SupportedLaneCount(lanes)
    requires data.block.min.x <= data.block.max.x && data.block.min.y <= data.block.max.y
    requires BlockWidth(data.block) * BlockHeight(data.block) <= U32_MAX
    modifies data.frame.dst
    ensures ok <==> AllHitsInBounds(data, lanes)
    ensures forall k :: 0 <= k < data.frame.dst.Length ==>
              data.frame.dst[k] == old(data.frame.dst[k]) || (data.frame.dst[k] == U32_MAX && HitCell(data, lanes, k))
    ensures ok ==> forall t, i :: Hit(data, lanes, t, i) ==>
              WriteIndex(data, i) < data.frame.dst.Length && data.frame.dst[WriteIndex(data, i)] == U32_MAX
  {
    var dst := data.frame.dst;
    for t := 0 to |data.list|
      invariant OnlyHitsMarked(data, lanes, old(dst[..]), dst[..])
      invariant MarkedUpTo(data, lanes, t, dst[..])
    {
      ghost var before := dst[..];
      ok := MarkTriangle(data, lanes, t);
      OnlyHitsMarkedTrans(data, lanes, old(dst[..]), before, dst[..]);
      if !ok {
        return;
      }
      MarkedUpToNext(data, lanes, t, before, dst[..]);
    }
    ok := true;
    AllTrianglesMarked(data, lanes, dst[..]);
  }

  /** The hits of every triangle before t are marked in `cur`. */
  ghost predicate MarkedUpTo(data: TriangleRasterizerData, n: nat, t: nat, cur: seq<int>)
  {
    forall t' :: 0 <= t' < t ==> HitsMarked(data, n, t', BlockWidth(data.block) * BlockHeight(data.block), cur)
  }

  lemma MarkedUpToNext(data: TriangleRasterizerData, n: nat, t: nat, before: seq<int>, cur: seq<int>)
    requires MarkedUpTo(data, n, t, before) && OnlyHitsMarked(data, n, before, cur)
    requires HitsMarked(data, n, t, BlockWidth(data.block) * BlockHeight(data.block), cur)
    ensures MarkedUpTo(data, n, t + 1, cur)
  {
    forall t' | 0 <= t' < t
      ensures HitsMarked(data, n, t', BlockWidth(data.block) * BlockHeight(data.block), cur)
    {
      HitsMarkedStable(data, n, t', BlockWidth(data.block) * BlockHeight(data.block), before, cur);
    }
  }

  /** Once every triangle's scan has marked its hits, every hit is marked. */
  lemma AllTrianglesMarked(data: TriangleRasterizerData, n: nat, cur: seq<int>)
    requires MarkedUpTo(data, n, |data.list|, cur)
    ensures forall t, i :: Hit(data, n, t, i) ==> WriteIndex(data, i) < |cur| && cur[WriteIndex(data, i)] == U32_MAX
  {
    forall t, i | Hit(data, n, t, i)
      ensures WriteIndex(data, i) < |cur| && cur[WriteIndex(data, i)] == U32_MAX
    {
      assert HitsMarked(data, n, t, BlockWidth(data.block) * BlockHeight(data.block), cur);
    }
  }

  /** Every cell of `cur` that differs from `orig` holds `u32::MAX` and is
      the index of some hit. */
  ghost predicate OnlyHitsMarked(data: TriangleRasterizerData, n: nat, orig: seq<int>, cur: seq<int>)
  {
    && |cur| == |orig|
    && (forall k :: 0 <= k < |cur| ==> cur[k] == orig[k] || (cur[k] == U32_MAX && HitCell(data, n, k)))
    && (forall k :: 0 <= k < |cur| && orig[k] == U32_MAX ==> cur[k] == U32_MAX)
  }

  /** Every hit of triangle t below scan index i has been written. */
  ghost predicate HitsMarked(data: TriangleRasterizerData, n: nat, t: nat, i: int, cur: seq<int>)
  {
    forall i' :: i' < i && Hit(data, n, t, i') ==> WriteIndex(data, i') < |cur| && cur[WriteIndex(data, i')] == U32_MAX
  }

  lemma OnlyHitsMarkedAfterWrite(data: TriangleRasterizerData, n: nat, t: nat, i: int, orig: seq<int>, cur: seq<int>)
    requires OnlyHitsMarked(data, n, orig, cur)
    requires Hit(data, n, t, i) && WriteIndex(data, i) < |cur|
    ensures OnlyHitsMarked(data, n, orig, cur[WriteIndex(data, i) := U32_MAX])
  {
    assert HitCell(data, n, WriteIndex(data, i));
  }

  lemma HitsMarkedAfterWrite(data: TriangleRasterizerData, n: nat, t: nat, i: int, cur: seq<int>)
    requires HitsMarked(data, n, t, i, cur)
    requires Hit(data, n, t, i) && WriteIndex(data, i) < |cur|
    ensures HitsMarked(data, n, t, i + 1, cur[WriteIndex(data, i) := U32_MAX])
  {
    var next := cur[WriteIndex(data, i) := U32_MAX];
    forall i' | i' < i + 1 && Hit(data, n, t, i')
      ensures WriteIndex(data, i') < |next| && next[WriteIndex(data, i')] == U32_MAX
    {
      if i' < i {
        assert cur[WriteIndex(data, i')] == U32_MAX;
      }
    }
  }

  lemma MarkedAfterSkip(data: TriangleRasterizerData, n: nat, t: nat, i: int, cur: seq<int>)
    requires HitsMarked(data, n, t, i, cur)
    requires !Hit(data, n, t, i)
    ensures HitsMarked(data, n, t, i + 1, cur)
  {
  }

  lemma OnlyHitsMarkedTrans(data: TriangleRasterizerData, n: nat, orig: seq<int>, mid: seq<int>, cur: seq<int>)
    requires OnlyHitsMarked(data, n, orig, mid) && OnlyHitsMarked(data, n, mid, cur)
    ensures OnlyHitsMarked(data, n, orig, cur)
  {
  }

  /** Later writes store `u32::MAX` only, so earlier marks survive them. */
  lemma HitsMarkedStable(data: TriangleRasterizerData, n: nat, t: nat, i: int, mid: seq<int>, cur: seq<int>)
    requires HitsMarked(data, n, t, i, mid) && OnlyHitsMarked(data, n, mid, cur)
    ensures HitsMarked(data, n, t, i, cur)
  {
  }

  /** One pass of the macro's outer loop: the scan of triangle t over
      `0..width*height`. */
  method MarkTriangle(data: TriangleRasterizerData, lanes: nat, t: nat) returns (ok: bool)
    requires t < |data.list|
    requires BlockWidth(data.block) >= 0 && BlockHeight(data.block) >= 0
    modifies data.frame.dst
    ensures OnlyHitsMarked(data, lanes, old(data.frame.dst[..]), data.frame.dst[..])
    ensures ok ==> HitsMarked(data, lanes, t, BlockWidth(data.block) * BlockHeight(data.block), data.frame.dst[..])
    ensures !ok ==> exists i :: Hit(data, lanes, t, i) && WriteIndex(data, i) >= data.frame.dst.Length
  {
    var dst := data.frame.dst;
    var width := BlockWidth(data.block);
    var height := BlockHeight(data.block);
    for i := 0 to width * height
      invariant OnlyHitsMarked(data, lanes, old(dst[..]), dst[..])
      invariant HitsMarked(data, lanes, t, i, dst[..])
    {
      assert width > 0;
      var x := i % width;
      var y := i / width;
      var xVec := XLanes(x, lanes);
      var yVec := Splat(lanes, x);
      var mask := TriangleMask(xVec, yVec, TriOf(data.list[t]));
      assert mask == ScanMask(data, lanes, t, i);
      if Any(mask) {
        var index := y + data.frame.height * x;
        assert Hit(data, lanes, t, i) && index == WriteIndex(data, i);
        if index >= dst.Length {
          return false;
        }
        ghost var before := dst[..];
        OnlyHitsMarkedAfterWrite(data, lanes, t, i, old(dst[..]), before);
        HitsMarkedAfterWrite(data, lanes, t, i, before);
        dst[index] := U32_MAX;
        assert dst[..] == before[index := U32_MAX];
      } else {
        MarkedAfterSkip(data, lanes, t, i, dst[..]);
      }
    }
    ok := true;
  }
}
