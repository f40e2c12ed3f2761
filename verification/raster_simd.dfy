/** `SimdTriangleRasterizer` of the current revision (`hedra/src/raster/simd.rs`):
    vertices are taken three at a time, and for each triangle a fresh edge
    state is walked over the tile's index range N lanes per iteration; when
    some lane is covered, the caller's colour function is asked for a colour
    vector, which is stored lane-selectively into the frame buffer. A panic
    (division by a zero width, or a slice start past the end of the buffer)
    is modelled as the result `false`, with the writes made before it kept. */
module RasterSimd {
  import opened Num
  import opened Simd
  import opened Math
  import opened Raster
  import Rast

  /** `SimdTrianglePixelState`: the lane positions handed to the colour function. */
  datatype PixelState = PixelState(pixel: Vec2<Lanes>)

  /** The buffer contents after (part of) a call, and whether it is still
      running: `ok` turns false at a panic and stays false. */
  datatype Outcome = Outcome(buf: seq<int>, ok: bool)

  /** The colour function returns a `Simd<u32, N>`: N lanes. */
  ghost predicate ColorLanes(pixel: PixelState -> Lanes, n: nat)
  {
    forall s :: |pixel(s)| == n
  }

  /** The conditions under which the scan runs at all: lanes exist and the
      tile width, the divisor of every lane position, is positive. */
  predicate Scannable(tile: Tile, n: nat)
  {
    n > 0 && tile.dimensions.x > 0
  }

  /** `start = position.y * dimensions.x + position.x`. */
  function StartIndex(tile: Tile): nat
  {
    tile.position.y * tile.dimensions.x + tile.position.x
  }

  /** The scan starts at the index whose lane-0 position is the tile's
      position, whenever that position's column is below the tile width. */
  lemma StartIndexDecodes(tile: Tile)
    requires 0 < tile.dimensions.x && tile.position.x < tile.dimensions.x
    ensures StartIndex(tile) / tile.dimensions.x == tile.position.y
    ensures StartIndex(tile) % tile.dimensions.x == tile.position.x
  {
    DivModUnique(StartIndex(tile), tile.dimensions.x, tile.position.y, tile.position.x);
  }

  /** `end = (position.y + dimensions.y) * dimensions.x + (position.x + dimensions.x)`. */
  function EndIndex(tile: Tile): nat
  {
    (tile.position.y + tile.dimensions.y) * tile.dimensions.x + (tile.position.x + tile.dimensions.x)
  }

  /** `end` lies one whole `dimensions.x` beyond `start` plus the tile's
      area: the scan runs one row width past the tile. */
  lemma EndOvershoots(tile: Tile)
    ensures EndIndex(tile) == StartIndex(tile) + tile.dimensions.y * tile.dimensions.x + tile.dimensions.x
  {
    assert (tile.position.y + tile.dimensions.y) * tile.dimensions.x
        == tile.position.y * tile.dimensions.x + tile.dimensions.y * tile.dimensions.x;
  }

  /** The lane positions `(n_vec + i) % width_vec` and `(n_vec + i) / width_vec`. */
  function PixelAt(nVec: Lanes, width: nat, i: int): (r: Vec2<Lanes>)
    requires width > 0
    ensures LanesOf(r, |nVec|)
  {
    var iVec := Add(nVec, Splat(|nVec|, i));
    var widthVec := Splat(|nVec|, width);
    Vec2(Rem(iVec, widthVec), Div(iVec, widthVec))
  }

  /** With the lane-index vector, lane j of scan index i sits at column
      `(i + j) % width` of row `(i + j) / width`. */
  lemma PixelAtLanes(n: nat, width: nat, i: nat)
    requires width > 0
    ensures forall j :: 0 <= j < n ==>
              PixelAt(Iota(n), width, i).x[j] == (i + j) % width && PixelAt(Iota(n), width, i).y[j] == (i + j) / width
  {
    forall j | 0 <= j < n
      ensures PixelAt(Iota(n), width, i).x[j] == (i + j) % width && PixelAt(Iota(n), width, i).y[j] == (i + j) / width
    {
      TruncMatchesEuclidean(i + j, width);
    }
  }

  /** The pixel state of iteration k: lane positions for scan index `start + k*N`. */
  function StateAt(tile: Tile, n: nat, k: nat): (r: PixelState)
    requires Scannable(tile, n)
    ensures LanesOf(r.pixel, n)
  {
    PixelState(PixelAt(Iota(n), tile.dimensions.x, StartIndex(tile) + k * n))
  }

  /** The slice start of iteration k: `y * dst_width + x` from lane 0. */
  function BaseAt(tile: Tile, n: nat, k: nat): (r: int)
    requires Scannable(tile, n)
    ensures var i := StartIndex(tile) + k * n;
            r == (i / tile.dimensions.x) * tile.dstWidth + i % tile.dimensions.x
  {
    var st := StateAt(tile, n, k);
    PixelAtLanes(n, tile.dimensions.x, StartIndex(tile) + k * n);
    st.pixel.y[0] * tile.dstWidth + st.pixel.x[0]
  }

  /** With one lane and a tile whose left edge is column 0, the pixel the
      edge state tests in iteration k (the start position shifted by
      `Col`/`Row`, as in `MaskAtLanes`) is the pixel handed to the colour
      function, and it is column `k % width` of row `position.y + k / width`:
      iterations 0 .. width*height-1 visit every pixel of the tile once. */
  lemma TestedIsStored(tile: Tile, k: nat)
    requires Scannable(tile, 1) && tile.position.x == 0
    ensures var w := tile.dimensions.x;
            var p0, pk := StateAt(tile, 1, 0).pixel, StateAt(tile, 1, k).pixel;
            && p0.x[0] + Col(w / 1, k) == pk.x[0] && p0.y[0] + Row(w / 1, k) == pk.y[0]
            && pk.x[0] == k % w && pk.y[0] == tile.position.y + k / w
  {
    var w := tile.dimensions.x;
    StartIndexDecodes(tile);
    PixelAtLanes(1, w, StartIndex(tile));
    PixelAtLanes(1, w, StartIndex(tile) + k * 1);
    assert StartIndex(tile) + k == w * (tile.position.y + k / w) + k % w;
    DivModUnique(StartIndex(tile) + k, w, tile.position.y + k / w, k % w);
  }

  /** With the lane-index vector and a row pitch equal to the tile width, the
      slice start is the scan index itself. */
  lemma StoreAddressIsScanIndex(tile: Tile, n: nat, k: nat)
    requires Scannable(tile, n) && tile.dstWidth == tile.dimensions.x
    ensures BaseAt(tile, n, k) == StartIndex(tile) + k * n
  {
    var i := StartIndex(tile) + k * n;
    PixelAtLanes(n, tile.dimensions.x, i);
    assert i == (i / tile.dimensions.x) * tile.dimensions.x + i % tile.dimensions.x;
  }

  /** `[v.x; N]` and `[v.y; N]`: a vertex broadcast to every lane. */
  function Broadcast(n: nat, v: Vec2<int>): (r: Vec2<Lanes>)
    ensures LanesOf(r, n)
  {
    Vec2(Splat(n, v.x), Splat(n, v.y))
  }

  /** The triangle made of the three vertices at list offset t. */
  function TriAt(list: seq<Vec2<int>>, t: nat, n: nat): (r: Triangle)
    requires t + 3 <= |list|
    ensures TriLanes(r, n)
  {
    Triangle(Broadcast(n, list[t]), Broadcast(n, list[t + 1]), Broadcast(n, list[t + 2]))
  }

  /** The mask iteration k reads: the edge state after exactly k steps, each
      moving one column along rows of `dimensions.x / N` columns, from the
      lane positions of the start index. */
  function MaskAt(tile: Tile, n: nat, tri: Triangle, k: nat): (r: LaneMask)
    requires Scannable(tile, n) && TriLanes(tri, n)
    ensures |r| == n
  {
    var w := tile.dimensions.x / n;
    Covered(EdgesAt(StateAt(tile, n, 0).pixel, tri, Col(w, k), Row(w, k)))
  }

  /** Lane j of iteration k's mask is the scalar coverage test of the point
      that lane j of the start index is shifted to by k edge steps: column
      `(start + j) % dimensions.x + Col`, row `(start + j) / dimensions.x + Row`,
      against v2 -> v3, v3 -> v1 and v1 -> v2. */
  lemma MaskAtLanes(tile: Tile, n: nat, tri: Triangle, k: nat)
    requires Scannable(tile, n) && TriLanes(tri, n)
    ensures forall j :: 0 <= j < n ==>
              var w := tile.dimensions.x / n;
              var x := (StartIndex(tile) + j) % tile.dimensions.x + Col(w, k);
              var y := (StartIndex(tile) + j) / tile.dimensions.x + Row(w, k);
              (MaskAt(tile, n, tri, k)[j] <==>
                 && Rast.Edge(x, y, tri.v2.x[j], tri.v2.y[j], tri.v3.x[j] - tri.v2.x[j], tri.v3.y[j] - tri.v2.y[j]) >= 0
                 && Rast.Edge(x, y, tri.v3.x[j], tri.v3.y[j], tri.v1.x[j] - tri.v3.x[j], tri.v1.y[j] - tri.v3.y[j]) >= 0
                 && Rast.Edge(x, y, tri.v1.x[j], tri.v1.y[j], tri.v2.x[j] - tri.v1.x[j], tri.v2.y[j] - tri.v1.y[j]) >= 0)
  {
    PixelAtLanes(n, tile.dimensions.x, StartIndex(tile));
  }

  /** `store_select` on `dst[base..]`: lane j overwrites cell `base + j` with
      colour lane j when its mask lane is set and the cell lies in the buffer;
      every other cell keeps its value. */
  function StoreSelected(buf: seq<int>, base: int, color: Lanes, mask: LaneMask): (r: seq<int>)
    requires |color| == |mask|
    ensures |r| == |buf|
    ensures forall j :: 0 <= j < |mask| && mask[j] && 0 <= base + j < |buf| ==> r[base + j] == color[j]
    ensures forall c :: 0 <= c < |buf| && !(base <= c < base + |mask| && mask[c - base]) ==> r[c] == buf[c]
  {
    seq(|buf|, c requires 0 <= c < |buf| =>
      if base <= c < base + |mask| && mask[c - base] then color[c - base] else buf[c])
  }

  /** Iteration k of one triangle's scan: nothing happens unless some lane is
      covered; then the colour function is called on the lane positions and
      its result is stored under the mask, or the slice start panics. */
  function Iter(o: Outcome, tile: Tile, n: nat, tri: Triangle, pixel: PixelState -> Lanes, k: nat): (r: Outcome)
    requires Scannable(tile, n) && TriLanes(tri, n) && ColorLanes(pixel, n)
    ensures |r.buf| == |o.buf|
    ensures !o.ok ==> r == o
    ensures !r.ok ==> r.buf == o.buf
    ensures !Any(MaskAt(tile, n, tri, k)) ==> r == o
  {
    if !o.ok then o
    else
      var mask := MaskAt(tile, n, tri, k);
      if !Any(mask) then o
      else if BaseAt(tile, n, k) > |o.buf| then Outcome(o.buf, false)
      else Outcome(StoreSelected(o.buf, BaseAt(tile, n, k), pixel(StateAt(tile, n, k)), mask), true)
  }

  /** The iterations k, k+1, ... of one triangle: scan indices
      `start + k*N` below `end`. */
  function ScanFrom(o: Outcome, tile: Tile, n: nat, tri: Triangle, pixel: PixelState -> Lanes, k: nat): (r: Outcome)
    requires Scannable(tile, n) && TriLanes(tri, n) && ColorLanes(pixel, n)
    ensures |r.buf| == |o.buf|
    ensures r.ok ==> o.ok
    decreases EndIndex(tile) - (StartIndex(tile) + k * n)
  {
    if StartIndex(tile) + k * n >= EndIndex(tile) then o
    else
      assert (k + 1) * n == k * n + n;
      ScanFrom(Iter(o, tile, n, tri, pixel, k), tile, n, tri, pixel, k + 1)
  }

  /** The triangles at list offsets t, t+3, ...; a trailing group of fewer
      than three vertices is not a triangle. */
  function RasterizeFrom(o: Outcome, tile: Tile, n: nat, list: seq<Vec2<int>>, pixel: PixelState -> Lanes, t: nat): (r: Outcome)
    requires Scannable(tile, n) && ColorLanes(pixel, n)
    ensures |r.buf| == |o.buf|
    ensures r.ok ==> o.ok
    decreases |list| - t
  {
    if t + 3 > |list| then o
    else RasterizeFrom(ScanFrom(o, tile, n, TriAt(list, t, n), pixel, 0), tile, n, list, pixel, t + 3)
  }

  /** A whole `rasterize` call on a buffer holding `buf`. */
  function Rasterized(buf: seq<int>, tile: Tile, n: nat, list: seq<Vec2<int>>, pixel: PixelState -> Lanes): (r: Outcome)
    requires n > 0 && ColorLanes(pixel, n)
    ensures |r.buf| == |buf|
    ensures tile.dimensions.x == 0 ==> r == Outcome(buf, false)
  {
    if tile.dimensions.x == 0 then Outcome(buf, false)
    else RasterizeFrom(Outcome(buf, true), tile, n, list, pixel, 0)
  }

  /** An iteration in the overshoot past the buffer: with the row pitch equal
      to the tile width, a covered iteration whose scan index lies past the
      end of the buffer panics at its slice start. */
  lemma OvershootPanics(o: Outcome, tile: Tile, n: nat, tri: Triangle, pixel: PixelState -> Lanes, k: nat)
    requires Scannable(tile, n) && TriLanes(tri, n) && ColorLanes(pixel, n)
    requires o.ok && tile.dstWidth == tile.dimensions.x && StartIndex(tile) + k * n > |o.buf|
    requires Any(MaskAt(tile, n, tri, k))
    ensures Iter(o, tile, n, tri, pixel, k) == Outcome(o.buf, false)
  {
    StoreAddressIsScanIndex(tile, n, k);
  }

  /** A 4 x 1 tile at the origin of a 4-cell buffer with row pitch 4 and
      two lanes: the scan still runs iteration 3, whose slice starts at 6,
      past the end of the buffer. */
  lemma OvershootExample(tile: Tile)
    requires tile.position == Vec2(0, 0) && tile.dimensions == Vec2(4, 1)
    requires tile.dstWidth == 4 && tile.dst.Length == 4
    ensures EndIndex(tile) == 8 && StartIndex(tile) + 3 * 2 < EndIndex(tile)
    ensures BaseAt(tile, 2, 3) == 6 > tile.dst.Length
  {
    StoreAddressIsScanIndex(tile, 2, 3);
  }

  /** After a panic nothing more happens to the buffer. */
  lemma {:induction false} ScanPanicSticky(o: Outcome, tile: Tile, n: nat, tri: Triangle, pixel: PixelState -> Lanes, k: nat)
    requires Scannable(tile, n) && TriLanes(tri, n) && ColorLanes(pixel, n)
    requires !o.ok
    ensures ScanFrom(o, tile, n, tri, pixel, k) == o
    decreases EndIndex(tile) - (StartIndex(tile) + k * n)
  {
    if StartIndex(tile) + k * n < EndIndex(tile) {
      assert (k + 1) * n == k * n + n;
      ScanPanicSticky(o, tile, n, tri, pixel, k + 1);
    }
  }

  lemma {:induction false} RasterizePanicSticky(o: Outcome, tile: Tile, n: nat, list: seq<Vec2<int>>, pixel: PixelState -> Lanes, t: nat)
    requires Scannable(tile, n) && ColorLanes(pixel, n)
    requires !o.ok
    ensures RasterizeFrom(o, tile, n, list, pixel, t) == o
    decreases |list| - t
  {
    if t + 3 <= |list| {
      ScanPanicSticky(o, tile, n, TriAt(list, t, n), pixel, 0);
      RasterizePanicSticky(o, tile, n, list, pixel, t + 3);
    }
  }

  /** A triangle that covers no lane in any remaining iteration neither calls
      the colour function nor changes the buffer. */
  lemma {:induction false} UncoveredScanWritesNothing(o: Outcome, tile: Tile, n: nat, tri: Triangle, pixel: PixelState -> Lanes, k: nat)
    requires Scannable(tile, n) && TriLanes(tri, n) && ColorLanes(pixel, n)
    requires forall k' :: k <= k' ==> !Any(MaskAt(tile, n, tri, k'))
    ensures ScanFrom(o, tile, n, tri, pixel, k) == o
    decreases EndIndex(tile) - (StartIndex(tile) + k * n)
  {
    if StartIndex(tile) + k * n < EndIndex(tile) {
      assert (k + 1) * n == k * n + n;
      UncoveredScanWritesNothing(o, tile, n, tri, pixel, k + 1);
    }
  }

  /** Only whole triples of vertices are drawn: dropping a trailing group of
      one or two vertices changes nothing. */
  lemma {:induction false} TrailingVerticesIgnored(o: Outcome, tile: Tile, n: nat, list: seq<Vec2<int>>, pixel: PixelState -> Lanes, t: nat)
    requires Scannable(tile, n) && ColorLanes(pixel, n) && t % 3 == 0
    ensures RasterizeFrom(o, tile, n, list, pixel, t) == RasterizeFrom(o, tile, n, list[..|list| - |list| % 3], pixel, t)
    decreases |list| - t
  {
    var whole := list[..|list| - |list| % 3];
    if t + 3 <= |list| {
      assert t + 3 <= |whole|;
      assert TriAt(list, t, n) == TriAt(whole, t, n);
      TrailingVerticesIgnored(ScanFrom(o, tile, n, TriAt(list, t, n), pixel, 0), tile, n, list, pixel, t + 3);
    } else {
      assert t + 3 > |whole|;
    }
  }

  /** One iteration of the scan, case by case: an uncovered iteration moves
      on, an out-of-range slice start ends everything, and otherwise the
      masked store happens before the next iteration. */
  lemma ScanStep(buf: seq<int>, tile: Tile, n: nat, tri: Triangle, pixel: PixelState -> Lanes, k: nat)
    requires Scannable(tile, n) && TriLanes(tri, n) && ColorLanes(pixel, n)
    requires StartIndex(tile) + k * n < EndIndex(tile)
    ensures var mask, base := MaskAt(tile, n, tri, k), BaseAt(tile, n, k);
            && (!Any(mask) ==>
                  ScanFrom(Outcome(buf, true), tile, n, tri, pixel, k) == ScanFrom(Outcome(buf, true), tile, n, tri, pixel, k + 1))
            && (Any(mask) && base > |buf| ==>
                  ScanFrom(Outcome(buf, true), tile, n, tri, pixel, k) == Outcome(buf, false))
            && (Any(mask) && base <= |buf| ==>
                  ScanFrom(Outcome(buf, true), tile, n, tri, pixel, k)
                  == ScanFrom(Outcome(StoreSelected(buf, base, pixel(StateAt(tile, n, k)), mask), true), tile, n, tri, pixel, k + 1))
  {
    var o := Outcome(buf, true);
    assert (k + 1) * n == k * n + n;
    assert ScanFrom(o, tile, n, tri, pixel, k) == ScanFrom(Iter(o, tile, n, tri, pixel, k), tile, n, tri, pixel, k + 1);
    ScanPanicSticky(Outcome(buf, false), tile, n, tri, pixel, k + 1);
  }

  /** The edge state after k steps from the start positions of the tile,
      stepping along rows of `dimensions.x / N`, yields the mask of
      iteration k. */
  lemma EdgeMaskAt(e: TriangleEdgeState, tile: Tile, n: nat, tri: Triangle, k: nat)
    requires Scannable(tile, n) && TriLanes(tri, n)
    requires e.Valid() && e.steps == k && e.lanes == n && e.tri == tri
    requires e.p == StateAt(tile, n, 0).pixel && e.width == tile.dimensions.x / n
    ensures EdgesLanes(e.edges, n) && Covered(e.edges) == MaskAt(tile, n, tri, k)
  {
  }

  /** Away from column 0 the two disagree: with one lane, a 2 x 1 tile at
      (1, 0) and row pitch 2, iteration 1 tests pixel (2, 0), while the colour
      function is handed (0, 1) and the store lands at cell 2. */
  lemma TestedNotStoredExample(tile: Tile)
    requires tile.position == Vec2(1, 0) && tile.dimensions == Vec2(2, 1) && tile.dstWidth == 2
    ensures var p0, p1 := StateAt(tile, 1, 0).pixel, StateAt(tile, 1, 1).pixel;
            && p0.x[0] + Col(2, 1) == 2 && p0.y[0] + Row(2, 1) == 0
            && p1.x[0] == 0 && p1.y[0] == 1
            && BaseAt(tile, 1, 1) == 2
  {
    PixelAtLanes(1, 2, 1);
    PixelAtLanes(1, 2, 2);
  }

  /** Cell c holds v because iteration k of the triangle at list offset t, a
      whole vertex triple counted from the start of the list, stored colour
      lane j there: lane j was covered, the scan index was in
      range, and c is lane j's cell of the slice. */
  ghost predicate WrittenBy(tile: Tile, n: nat, list: seq<Vec2<int>>, pixel: PixelState -> Lanes, t: nat, k: nat, j: nat, c: int, v: int)
    requires Scannable(tile, n) && ColorLanes(pixel, n)
  {
    && t % 3 == 0 && t + 3 <= |list| && j < n
    && StartIndex(tile) + k * n < EndIndex(tile)
    && MaskAt(tile, n, TriAt(list, t, n), k)[j]
    && BaseAt(tile, n, k) + j == c
    && v == pixel(StateAt(tile, n, k))[j]
  }

  /** Every cell that differs from `orig` holds a colour lane some covered
      lane wrote there. */
  ghost predicate Explained(orig: seq<int>, cur: seq<int>, tile: Tile, n: nat, list: seq<Vec2<int>>, pixel: PixelState -> Lanes)
    requires Scannable(tile, n) && ColorLanes(pixel, n)
  {
    && |cur| == |orig|
    && forall c :: 0 <= c < |cur| && cur[c] != orig[c] ==>
         exists t, k, j :: WrittenBy(tile, n, list, pixel, t, k, j, c, cur[c])
  }

  /** A masked store whose every enabled lane is accounted for keeps the
      buffer explained. */
  lemma ExplainedStore(orig: seq<int>, buf: seq<int>, base: int, color: Lanes, mask: LaneMask,
                       tile: Tile, n: nat, list: seq<Vec2<int>>, pixel: PixelState -> Lanes, t: nat, k: nat)
    requires Scannable(tile, n) && ColorLanes(pixel, n) && |color| == n && |mask| == n
    requires Explained(orig, buf, tile, n, list, pixel)
    requires forall j :: 0 <= j < n && mask[j] ==> WrittenBy(tile, n, list, pixel, t, k, j, base + j, color[j])
    ensures Explained(orig, StoreSelected(buf, base, color, mask), tile, n, list, pixel)
  {
    var r := StoreSelected(buf, base, color, mask);
    forall c | 0 <= c < |r| && r[c] != orig[c]
      ensures exists t', k', j :: WrittenBy(tile, n, list, pixel, t', k', j, c, r[c])
    {
      if base <= c < base + n && mask[c - base] {
        var j := c - base;
        assert r[c] == color[j];
        assert WrittenBy(tile, n, list, pixel, t, k, j, base + j, color[j]);
      } else {
        assert r[c] == buf[c];
      }
    }
  }

  lemma ExplainedIter(orig: seq<int>, o: Outcome, tile: Tile, n: nat, list: seq<Vec2<int>>, pixel: PixelState -> Lanes, t: nat, k: nat)
    requires Scannable(tile, n) && ColorLanes(pixel, n) && t % 3 == 0 && t + 3 <= |list|
    requires StartIndex(tile) + k * n < EndIndex(tile)
    requires Explained(orig, o.buf, tile, n, list, pixel)
    ensures Explained(orig, Iter(o, tile, n, TriAt(list, t, n), pixel, k).buf, tile, n, list, pixel)
  {
    var mask := MaskAt(tile, n, TriAt(list, t, n), k);
    if o.ok && Any(mask) && BaseAt(tile, n, k) <= |o.buf| {
      var base := BaseAt(tile, n, k);
      var color := pixel(StateAt(tile, n, k));
      forall j | 0 <= j < n && mask[j]
        ensures WrittenBy(tile, n, list, pixel, t, k, j, base + j, color[j])
      {
      }
      ExplainedStore(orig, o.buf, base, color, mask, tile, n, list, pixel, t, k);
    }
  }

  lemma {:induction false} ExplainedScan(orig: seq<int>, o: Outcome, tile: Tile, n: nat, list: seq<Vec2<int>>, pixel: PixelState -> Lanes, t: nat, k: nat)
    requires Scannable(tile, n) && ColorLanes(pixel, n) && t % 3 == 0 && t + 3 <= |list|
    requires Explained(orig, o.buf, tile, n, list, pixel)
    ensures Explained(orig, ScanFrom(o, tile, n, TriAt(list, t, n), pixel, k).buf, tile, n, list, pixel)
    decreases EndIndex(tile) - (StartIndex(tile) + k * n)
  {
    if StartIndex(tile) + k * n < EndIndex(tile) {
      assert (k + 1) * n == k * n + n;
      ExplainedIter(orig, o, tile, n, list, pixel, t, k);
      ExplainedScan(orig, Iter(o, tile, n, TriAt(list, t, n), pixel, k), tile, n, list, pixel, t, k + 1);
    }
  }

  lemma {:induction false} ExplainedRasterize(orig: seq<int>, o: Outcome, tile: Tile, n: nat, list: seq<Vec2<int>>, pixel: PixelState -> Lanes, t: nat)
    requires Scannable(tile, n) && ColorLanes(pixel, n) && t % 3 == 0
    requires Explained(orig, o.buf, tile, n, list, pixel)
    ensures Explained(orig, RasterizeFrom(o, tile, n, list, pixel, t).buf, tile, n, list, pixel)
    decreases |list| - t
  {
    if t + 3 <= |list| {
      ExplainedScan(orig, o, tile, n, list, pixel, t, 0);
      ExplainedRasterize(orig, ScanFrom(o, tile, n, TriAt(list, t, n), pixel, 0), tile, n, list, pixel, t + 3);
    }
  }

  /** Whatever happens, including a panic part way, every cell a call changes
      holds the colour lane of a covered lane whose slice cell it is. */
  lemma OnlyCoveredLanesWritten(buf: seq<int>, tile: Tile, n: nat, list: seq<Vec2<int>>, pixel: PixelState -> Lanes)
    requires Scannable(tile, n) && ColorLanes(pixel, n)
    ensures Explained(buf, Rasterized(buf, tile, n, list, pixel).buf, tile, n, list, pixel)
  {
    ExplainedRasterize(buf, Outcome(buf, true), tile, n, list, pixel, 0);
  }

  /** `store_select` into the buffer from `base` on. */
  method StoreSelect(dst: array<int>, base: int, color: Lanes, mask: LaneMask)
    requires |color| == |mask|
    modifies dst
    ensures dst[..] == StoreSelected(old(dst[..]), base, color, mask)
  {
    forall c | 0 <= c < dst.Length && base <= c < base + |mask| && mask[c - base] {
      dst[c] := color[c - base];
    }
  }

  /** `SimdTriangleRasterizer<T, N>`: the lane-index vector `n_vec`. */
  class SimdTriangleRasterizer {
    const nVec: Lanes

    ghost predicate Valid()
    {
      SupportedLaneCount(|nVec|) && nVec == Iota(|nVec|)
    }

    /** `default`: lane j of `n_vec` holds j. */
    constructor Default(n: nat)
      requires SupportedLaneCount(n)
      ensures Valid()
      ensures |nVec| == n && forall j :: 0 <= j < n ==> nVec[j] == j
    {
      nVec := seq(n, j => j);
    }

    /** `rasterize`: the buffer ends as the specification says, and the
        result tells whether the call ran to completion. */
    method Rasterize(tile: Tile, list: seq<Vec2<int>>, pixel: PixelState -> Lanes) returns (ok: bool)
      requires Valid() && ColorLanes(pixel, |nVec|)
      modifies tile.dst
      ensures Outcome(tile.dst[..], ok) == Rasterized(old(tile.dst[..]), tile, |nVec|, list, pixel)
    {
      var n := |nVec|;
      if tile.dimensions.x == 0 {
        // `start_vec % width_vec` divides by zero
        return false;
      }
      var start := tile.position.y * tile.dimensions.x + tile.position.x;
      var end := (tile.position.y + tile.dimensions.y) * tile.dimensions.x + (tile.position.x + tile.dimensions.x);
      var edgeWidth := tile.dimensions.x / n;
      var state := PixelState(PixelAt(nVec, tile.dimensions.x, start));
      assert start == StartIndex(tile) && end == EndIndex(tile);
      assert state == StateAt(tile, n, 0);

      ghost var whole := RasterizeFrom(Outcome(tile.dst[..], true), tile, n, list, pixel, 0);
      var t := 0;
      while t + 3 <= |list|
        invariant RasterizeFrom(Outcome(tile.dst[..], true), tile, n, list, pixel, t) == whole
        decreases |list| - t
      {
        var v1 := Broadcast(n, list[t]);
        var v2 := Broadcast(n, list[t + 1]);
        var v3 := Broadcast(n, list[t + 2]);
        assert Triangle(v1, v2, v3) == TriAt(list, t, n);
        ghost var before := tile.dst[..];
        ok := ScanTriangle(tile, state, Triangle(v1, v2, v3), pixel, start, end, edgeWidth);
        assert Outcome(tile.dst[..], ok) == ScanFrom(Outcome(before, true), tile, n, TriAt(list, t, n), pixel, 0);
        if !ok {
          RasterizePanicSticky(Outcome(tile.dst[..], false), tile, n, list, pixel, t + 3);
          return;
        }
        t := t + 3;
      }
      ok := true;
    }

    /** One pass of the `while let` loop: the scan of a single triangle from
        a fresh edge state and a fresh copy of the pixel state. */
    method ScanTriangle(tile: Tile, state: PixelState, tri: Triangle, pixel: PixelState -> Lanes,
                        start: nat, end: nat, edgeWidth: nat) returns (ok: bool)
      requires Valid() && Scannable(tile, |nVec|) && ColorLanes(pixel, |nVec|) && TriLanes(tri, |nVec|)
      requires start == StartIndex(tile) && end == EndIndex(tile) && edgeWidth == tile.dimensions.x / |nVec|
      requires state == StateAt(tile, |nVec|, 0)
      modifies tile.dst
      ensures Outcome(tile.dst[..], ok) == ScanFrom(Outcome(old(tile.dst[..]), true), tile, |nVec|, tri, pixel, 0)
    {
      var n := |nVec|;
      var st := state;
      var edge := new TriangleEdgeState(edgeWidth, st.pixel, tri.v1, tri.v2, tri.v3);
      ghost var whole := ScanFrom(Outcome(tile.dst[..], true), tile, n, tri, pixel, 0);
      ghost var k: nat := 0;
      var i := start;
      while i < end
        invariant i == start + k * n
        invariant edge.Valid() && edge.steps == k && edge.lanes == n
        invariant edge.p == state.pixel && edge.tri == tri && edge.width == edgeWidth
        invariant ScanFrom(Outcome(tile.dst[..], true), tile, n, tri, pixel, k) == whole
        decreases end - i
      {
        var mask := edge.Mask();
        EdgeMaskAt(edge, tile, n, tri, k);
        edge.Step();
        ok := Visit(tile, tri, pixel, mask, i, k);
        if !ok {
          return;
        }
        i := i + n;
        k := k + 1;
      }
      ok := true;
    }

    /** The rest of an iteration of the `for i in (start..end).step_by(N)`
        loop, once the mask is read: when some lane is covered, compute the
        lane positions of `i`, call the colour function and store its result
        under the mask. */
    method Visit(tile: Tile, tri: Triangle, pixel: PixelState -> Lanes, mask: LaneMask,
                 i: nat, ghost k: nat) returns (ok: bool)
      requires Valid() && Scannable(tile, |nVec|) && ColorLanes(pixel, |nVec|) && TriLanes(tri, |nVec|)
      requires i == StartIndex(tile) + k * |nVec| && i < EndIndex(tile)
      requires mask == MaskAt(tile, |nVec|, tri, k)
      modifies tile.dst
      ensures ok ==> ScanFrom(Outcome(tile.dst[..], true), tile, |nVec|, tri, pixel, k + 1)
                     == ScanFrom(Outcome(old(tile.dst[..]), true), tile, |nVec|, tri, pixel, k)
      ensures !ok ==> Outcome(tile.dst[..], false) == ScanFrom(Outcome(old(tile.dst[..]), true), tile, |nVec|, tri, pixel, k)
    {
      var n := |nVec|;
      ghost var before := tile.dst[..];
      ScanStep(before, tile, n, tri, pixel, k);
      ok := true;
      if Any(mask) {
        var st := PixelState(PixelAt(nVec, tile.dimensions.x, i));
        assert st == StateAt(tile, n, k);
        var x := st.pixel.x[0];
        var y := st.pixel.y[0];
        var color := pixel(st);
        var base := y * tile.dstWidth + x;
        assert base == BaseAt(tile, n, k);
        if base > tile.dst.Length {
          // `&mut tile.dst[base..]` panics
          return false;
        }
        StoreSelect(tile.dst, base, color, mask);
      }
    }
  }
}
