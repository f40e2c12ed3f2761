# hedra triangle rasterizer — a Dafny model

hedra is a CPU triangle rasterizer built on Pineda-style edge functions. A
pixel is covered by a triangle when all three edge functions are
non-negative there. This project models two revisions of the rasterizer
over mathematical integers and proves properties of the model.

- **Current revision.** The incremental edge state `TriangleEdgeState`
  (`Raster`). It seeds the three edge values at a start point, adds
  per-column deltas on every `step`, and re-bases from a saved row start
  plus per-row deltas whenever its column counter reaches the row width.
  Its `test` and `mask` use the OR-then-sign trick. The lane-parallel
  `SimdTriangleRasterizer::rasterize` (`RasterSimd`) walks a tile's index
  range N lanes at a time. It asks the edge state for a lane mask, calls the
  caller's colour function only when some lane is covered, and writes back
  with a masked store.
- **Older revision.** The direct edge function and the `u32` to `i32`
  point cast (`Rast`). The lane-wise `triangle_mask` and the body of the
  `simd_triangle_rasterizer!` macro, which marks covered positions with
  `u32::MAX` (`RastSimd`).
- **Arithmetic helpers.** The `Zero`/`One` constants and
  `Vec2::to_barycentric` (`Math`).
- **Shared semantics.** Rust's integer semantics (`Num`): truncating `/`
  and `%`, bitwise OR on two's-complement values, and the wrapping `as i32`
  cast. Lane-wise `std::simd` vectors (`Simd`): a `Simd<T, N>` is a
  length-N `seq<int>` and a `Mask` is a length-N `seq<bool>`.

The generic `T` of `TriangleEdgeState` is modelled as a lane vector; a scalar
`T` is the one-lane case. The closed form of the edge state is its class
invariant `Valid`: after k steps the edges are the edge function evaluated
directly at column `k % width` and row `k / width` from the start point.
With width 0 the state re-bases on every step, so it stays at column 0 of row k.

The quirks of the source are reproduced, not fixed:

- The SIMD loop advances the scan index by N per iteration, but the edge
  state steps one column per iteration along rows of `dimensions.x / N`.
- Lane positions are decomposed with `dimensions.x`, but the store address
  uses `dst_width`.
- The old macro fills its y vector with x. It writes at the column-major
  index `y + frame.height * x`, and it scans `0..width*height` without
  adding `block.min`.
- The SIMD scan's `end` lies one whole `dimensions.x` beyond `start` plus
  the tile's area, so every triangle's scan runs one row width past the
  tile. For a 4 x 1 tile at the origin of a 4-cell buffer with two lanes,
  iteration 3 still runs and its slice starts at 6, past the buffer; a
  covered lane there panics.
- The edge state starts at the tile's column `position.x` and walks rows
  of `dimensions.x / N` columns from there, but the scan index decoded with
  pitch `dimensions.x` wraps back to column 0. With one lane, a 2 x 1 tile
  at (1, 0) and `dst_width` 2, iteration 1 tests pixel (2, 0), while the
  colour function is handed (0, 1) and the store lands at cell 2.

Two behaviours one might expect of a rasterizer are not what the code
does, and the model follows the code:

- An out-of-range address is not always skipped. The old macro indexes the
  buffer directly, so a covered position past its end panics. `rasterize`
  slices the buffer at the lane-0 address: a slice start past the end of
  the buffer panics, while lanes that fall past the end of a valid slice
  are skipped silently by `store_select`. In both panics the model returns
  `false` with the writes made before the panic kept.
- A lane's tested pixel and the pixel it is stored to agree only when
  N = 1 and `position.x == 0`. Then iterations 0 .. width*height-1 visit
  each pixel of the tile once, testing and handing to the colour function
  the same pixel. Otherwise the edge state steps one pixel per iteration
  along rows of `dimensions.x / N` pixels from `position.x`, while the lane
  positions and the slice start advance N indices per iteration from a
  decomposition that wraps to column 0. The model therefore states what
  each iteration tests and writes, not a coverage of the tile.

## Model

| member | source | states |
|---|---|---|
| Num.TruncDivRem | hedra/src/math.rs:153-154 | Integer `/` truncates toward zero: quotient and remainder recombine to the dividend, the remainder is smaller than the divisor and never has the opposite sign of the dividend |
| Num.TruncMatchesEuclidean | hedra/src/raster/simd.rs:123-128 | On a non-negative index and a positive width, Rust's `%` and `/` agree with Euclidean division |
| Num.BitOrSign | hedra/src/raster.rs:96-101 | An OR of two's-complement values is negative iff one of the operands is negative (proved by induction on the bits) |
| Num.BitOrInRange | hedra/src/raster.rs:100 | OR of two e-bit signed values is an e-bit signed value, so the unbounded model of OR loses nothing |
| Num.AsI32 | hedra/src/rast.rs:36-37 | `as i32` keeps the value modulo 2^32, is the identity up to `i32::MAX` and negative above it |
| Math.SimdZero | hedra/src/math.rs:66-67 | `ZERO` of a vector type has every lane 0 |
| Math.SimdOne | hedra/src/math.rs:69-70 | `ONE` of a vector type has every lane 1 |
| Math.ToBarycentric | hedra/src/math.rs:140-161 | With a nonzero divisor, the three barycentric components sum to `ONE` |
| Math.DivisorZeroIffCollinear | hedra/src/math.rs:151 | The shared divisor is zero exactly when the three vertices are collinear |
| Math.BarycentricTruncates | hedra/src/math.rs:149-154 | `l1` and `l2` are the truncating quotients of their dividends by the divisor, characterised by their remainders |
| Math.BarycentricAtVertices | hedra/src/math.rs:140-161 | The coordinates of v1, v2, v3 are (1,0,0), (0,1,0), (0,0,1) |
| Rast.PointFromPixel | hedra/src/rast.rs:33-40 | Each coordinate is cast separately into the `i32` range, congruent modulo 2^32 and unchanged when at most `i32::MAX` |
| Rast.Edge | hedra/src/rast.rs:43-45 | The edge function is zero exactly when the point's offset from the start is parallel to the direction (the point is on the segment's line), and everywhere for a zero direction |
| Rast.EdgeZeroAtEnds | hedra/src/rast.rs:43-45 | The edge function vanishes at the segment's start and end |
| Rast.EdgeSteps | hedra/src/rast.rs:43-45 | The edge function is affine: +1 in x adds `-dvy`, +1 in y adds `dvx` |
| Rast.EdgeReversed | hedra/src/rast.rs:43-45 | Reversing the segment negates the edge function |
| RastSimd.EdgeLanes | hedra/src/rast/simd.rs:46-59 | Lane j is the scalar edge function at (x[j], y[j]) with start `v1` and delta `v2 - v1` |
| RastSimd.TriangleMask | hedra/src/rast/simd.rs:61-89 | Lane j is true iff edges v0→v1, v1→v2 and v2→v0 are all ≥ 0 at (x[j], y[j]) |
| RastSimd.TriangleMaskLaneLocal | hedra/src/rast/simd.rs:75-88 | Lane j depends only on x[j], y[j] and the triangle |
| RastSimd.TriangleMaskRotation | hedra/src/rast/simd.rs:82-88 | Rotating the vertices cyclically gives the same mask |
| RastSimd.TriangleMaskCoversVertex | hedra/src/rast/simd.rs:82-88 | A lane at a vertex on the non-negative side of the opposite edge is covered: the boundary counts |
| RastSimd.XLanes | hedra/src/rast/simd.rs:22-24 | The macro's x vector is `[x, x+1, ..., x+N-1]` |
| RastSimd.ScanMask | hedra/src/rast/simd.rs:18-35 | At scan index i, lane j tests the point (x + j, x) with x = i % width: the y vector holds x |
| RastSimd.WriteIndex | hedra/src/rast/simd.rs:18-40 | The written index `y + frame.height * x` decodes back to row `i / width` and column `i % width` whenever the row is below the frame's height |
| RastSimd.SimdTriangleRasterizer | hedra/src/rast/simd.rs:9-44 | Completes iff every hit's index `y + height*x` is inside the buffer; every changed cell holds `u32::MAX` at some hit's index; on completion every hit's cell holds `u32::MAX` |
| RastSimd.MarkTriangle | hedra/src/rast/simd.rs:17-41 | One triangle's scan writes `u32::MAX` only at hit indices, keeps `u32::MAX` cells, marks all its hits, and fails only at a hit whose index is past the buffer |
| RastSimd.OnlyHitsMarkedAfterWrite | hedra/src/rast/simd.rs:37-40 | Writing `u32::MAX` at a hit's index keeps "only hits changed" |
| RastSimd.HitsMarkedAfterWrite | hedra/src/rast/simd.rs:37-40 | Writing at a hit's index extends "all hits so far marked" by one index |
| RastSimd.MarkedAfterSkip | hedra/src/rast/simd.rs:37-40 | An index with no covered lane needs no write |
| RastSimd.OnlyHitsMarkedTrans | hedra/src/rast/simd.rs:17-42 | "Only hits changed" composes across triangles |
| RastSimd.HitsMarkedStable | hedra/src/rast/simd.rs:17-42 | Later triangles only write `u32::MAX`, so earlier marks survive |
| RastSimd.MarkedUpToNext | hedra/src/rast/simd.rs:17-42 | After triangle t's scan, the hits of triangles 0..t are marked |
| RastSimd.AllTrianglesMarked | hedra/src/rast/simd.rs:17-42 | When every triangle's hits are marked, every hit's cell is in the buffer and holds `u32::MAX` |
| Raster.SeedEdge | hedra/src/raster.rs:52-56 | The expression `new` computes for each edge is the edge function of `p` against that edge |
| Raster.OffsetNext | hedra/src/raster.rs:75-93 | The column stays below a positive width; one step moves one column right, or to column 0 of the next row |
| Raster.EdgeAtSteps | hedra/src/raster.rs:61-62 | Adding the negated y-difference moves one column right; adding the x-difference moves one row down |
| Raster.EdgesAtSteps | hedra/src/raster.rs:61-62 | The three column deltas and the three row deltas move all three edges one column or one row |
| Raster.StepClosedForm | hedra/src/raster.rs:69-93 | The direct evaluation after k+1 steps is what `edge_add_step` and `next_row_test` compute from that after k steps |
| Raster.CoveredByOr | hedra/src/raster.rs:103-110 | The lane-wise OR-then-`>= 0` test is "all three edges ≥ 0" on every lane |
| Raster.TriangleEdgeState.constructor | hedra/src/raster.rs:44-66 | `new`: counter 0, `last_edges == edges`, edges of `p` against v2→v3, v3→v1, v1→v2, negated y-differences as column deltas and x-differences as row deltas |
| Raster.TriangleEdgeState.EdgeAddStep | hedra/src/raster.rs:68-73 | Every edge gains its column delta; nothing else changes |
| Raster.TriangleEdgeState.NextRowTest | hedra/src/raster.rs:75-86 | At the row width the row start gains the row deltas, becomes the edges, and the counter resets; otherwise nothing changes |
| Raster.TriangleEdgeState.Step | hedra/src/raster.rs:88-93 | `step` keeps the closed form (incremental equals direct) for one more step, keeps the counter below a positive width, and changes `last_edges` only at the end of a row |
| Raster.TriangleEdgeState.Test | hedra/src/raster.rs:95-101 | For a scalar `T`, `test` is true iff all three edge values are ≥ 0 |
| Raster.TriangleEdgeState.Mask | hedra/src/raster.rs:103-110 | `mask` is the per-lane "all three edges ≥ 0" |
| Raster.TriangleEdgeState.MaskIsTest | hedra/src/raster.rs:95-110 | On one lane, `mask` is `test` |
| RasterSimd.StartIndexDecodes | hedra/src/raster/simd.rs:83-96 | `start` is the scan index whose lane-0 position is the tile's position, whenever its column is below the tile width |
| RasterSimd.EndOvershoots | hedra/src/raster/simd.rs:83-85 | `end` is `start` plus the tile's area plus one more `dimensions.x`: the scan overshoots the tile by one row width |
| RasterSimd.PixelAtLanes | hedra/src/raster/simd.rs:123-128 | Lane j of scan index i sits at `((i+j) % dim.x, (i+j) / dim.x)` |
| RasterSimd.TestedIsStored | hedra/src/raster/simd.rs:83-127 | With one lane and `position.x == 0`, the pixel the edge state tests in iteration k is the pixel handed to the colour function, column `k % width` of row `position.y + k / width` |
| RasterSimd.TestedNotStoredExample | hedra/src/raster/simd.rs:83-135 | With one lane, a 2 x 1 tile at (1, 0) and pitch 2, iteration 1 tests (2, 0) but hands (0, 1) to the colour function and stores at cell 2 |
| RasterSimd.StoreAddressIsScanIndex | hedra/src/raster/simd.rs:130-135 | When `dst_width == dimensions.x`, the lane-0 slice start is the scan index |
| RasterSimd.BaseAt | hedra/src/raster/simd.rs:123-135 | The slice start of iteration k is the address, with row pitch `dst_width`, of row `i / dimensions.x` and column `i % dimensions.x` of scan index i = start + kN |
| RasterSimd.MaskAtLanes | hedra/src/raster/simd.rs:106-118 | Lane j of iteration k's mask is the scalar "all three edge functions ≥ 0" test, against v2→v3, v3→v1, v1→v2, of lane j's start position shifted by k edge steps |
| RasterSimd.StoreSelected | hedra/src/raster/simd.rs:135 | The masked store writes colour lane j at `base + j` for set, in-range lanes and leaves every other cell |
| RasterSimd.StoreSelect | hedra/src/raster/simd.rs:135 | `store_select` on the buffer computes `StoreSelected` |
| RasterSimd.Iter | hedra/src/raster/simd.rs:118-136 | One iteration keeps the buffer length, does nothing after a panic or when no lane is covered, and writes nothing when it panics |
| RasterSimd.ScanFrom | hedra/src/raster/simd.rs:117-137 | The remaining iterations of a triangle's scan keep the buffer length and complete only if the scan had not panicked before |
| RasterSimd.RasterizeFrom | hedra/src/raster/simd.rs:98-138 | The remaining triangle triples keep the buffer length and complete only if no earlier panic happened |
| RasterSimd.OvershootPanics | hedra/src/raster/simd.rs:83-135 | With `dst_width == dimensions.x`, a covered iteration whose scan index is past the end of the buffer panics at its slice start |
| RasterSimd.OvershootExample | hedra/src/raster/simd.rs:83-135 | A 4 x 1 tile at the origin of a 4-cell buffer with two lanes scans up to 8 and reaches a slice start of 6, past the buffer |
| RasterSimd.Rasterized | hedra/src/raster/simd.rs:88-96 | With `dimensions.x == 0` the call panics before touching the buffer |
| RasterSimd.ScanPanicSticky | hedra/src/raster/simd.rs:117-137 | After a panic the rest of a triangle's scan changes nothing |
| RasterSimd.RasterizePanicSticky | hedra/src/raster/simd.rs:103-138 | After a panic the remaining triangles change nothing |
| RasterSimd.UncoveredScanWritesNothing | hedra/src/raster/simd.rs:122-136 | A scan whose masks have no set lane leaves the buffer as it was |
| RasterSimd.TrailingVerticesIgnored | hedra/src/raster/simd.rs:98-103 | A trailing group of one or two vertices is ignored |
| RasterSimd.ScanStep | hedra/src/raster/simd.rs:117-137 | One iteration: uncovered moves on, an out-of-range slice start panics, otherwise the masked store happens |
| RasterSimd.EdgeMaskAt | hedra/src/raster/simd.rs:117-120 | The mask read before the k-th `step` is the direct evaluation at column `Col(dim.x/N, k)` and row `Row(dim.x/N, k)`: `k % w` and `k / w` for a positive row width w, column 0 and row k when `dim.x < N` |
| RasterSimd.ExplainedStore | hedra/src/raster/simd.rs:130-135 | A masked store of a covered iteration keeps every changed cell explained by a covered lane |
| RasterSimd.ExplainedIter | hedra/src/raster/simd.rs:118-136 | One iteration keeps every changed cell explained |
| RasterSimd.ExplainedScan | hedra/src/raster/simd.rs:117-137 | One triangle's scan keeps every changed cell explained |
| RasterSimd.ExplainedRasterize | hedra/src/raster/simd.rs:103-138 | All remaining triangles, taken as whole triples from an offset that is a multiple of 3, keep every changed cell explained |
| RasterSimd.OnlyCoveredLanesWritten | hedra/src/raster/simd.rs:75-139 | Every cell a call changes holds colour lane j of an iteration, of a triangle at a list offset that is a multiple of 3, whose mask lane j is set and whose slice cell j it is |
| RasterSimd.SimdTriangleRasterizer.Default | hedra/src/raster/simd.rs:48-51 | `default` builds the lane-index vector `[0, 1, ..., N-1]` |
| RasterSimd.SimdTriangleRasterizer.Rasterize | hedra/src/raster/simd.rs:75-139 | `rasterize` leaves the buffer and the completion flag exactly as the fold over triangles and iterations specifies |
| RasterSimd.SimdTriangleRasterizer.ScanTriangle | hedra/src/raster/simd.rs:104-137 | One triangle, from a fresh edge state and pixel state, is the scan fold from iteration 0 |
| RasterSimd.SimdTriangleRasterizer.Visit | hedra/src/raster/simd.rs:122-136 | The covered branch of one iteration is that iteration of the scan fold |

## Left out

- Float instantiations (`f32`, `f64`) of every generic are not modelled; all arithmetic is over `int`.
- Fixed-width overflow of the edge arithmetic and of `usize` index computations is not modelled: values are unbounded. `Num.BitOrInRange` shows that the OR itself never leaves the width.
- `NumberCast` conversions are the identity within range, and `SimdTransmute` is "read lane 0".
- Hardware SIMD behaviour and the `LaneCount` bound: only lane-wise semantics, with the supported lane counts as a predicate.
- The `debug_assert!` that the vertex list length is a multiple of 3 is not modelled; the release behaviour (a trailing partial triple is ignored) is.
- RastSimd.SimdTriangleRasterizer: the `u32` subtractions `max - min` and the product `width * height` panic on underflow or overflow in builds with overflow checks (debug builds) and wrap in release builds; the model requires `min <= max` and `width * height <= u32::MAX` instead, so neither the panic nor the wrapped value is modelled. The macro's `$pixel` argument is unused in its body and so absent.
- RastSimd.ScanMask: the column `x` is used as an unbounded integer; the model applies the wrapping cast to the vertices but not to the column. For `i32` lanes, `(x as usize + $lanes) as $elem` wraps once `x > i32::MAX - N`: for the N columns up to `i32::MAX` the range `x as $elem..end` is then empty and `from_slice` panics. Above `i32::MAX` both casts wrap, the range keeps N lanes, and the mask tests wrapped coordinates. Neither is modelled.
- RastSimd.XLanes: the x vector `[x, ..., x+N-1]` is built from an unbounded column, without the `x as $elem` and `(x as usize + $lanes) as $elem` casts; their wrap and the `from_slice` panic described for RastSimd.ScanMask are not modelled.
- Math.ToBarycentric: division by a zero divisor panics; the model requires a nonzero divisor.
- Raster.TriangleEdgeState.Test: only the scalar (one-lane) instantiation; for vectors `mask` is the lane-wise form.
- Raster.TriangleEdgeState: the `usize` column counter cannot wrap in the model.
- RasterSimd.SimdTriangleRasterizer.Rasterize: the colour function is a pure function value, so side effects it might have are not modelled. The pixel state passed to it is rebuilt on each covered iteration rather than kept in one variable per triangle; it is always assigned before it is read, so the values passed are the same.
- hedra/src/buffer.rs, hedra/src/buf.rs, hedra/src/shader.rs, hedra/src/shader/attr.rs, hedra/src/pipeline.rs, hedra/src/lib.rs and the example program are not part of this model: resource plumbing, code generation and trait declarations with no algorithm.
