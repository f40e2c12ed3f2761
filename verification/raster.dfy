/** The current revision's edge state (`hedra/src/raster.rs`): three edge values
    seeded for a start point and then advanced incrementally, one column at a
    time, re-basing from a saved row start whenever the column counter reaches
    the row width. The generic `T` is modelled as a vector of lanes; a scalar
    `T` is the one-lane case. */
module Raster {
  import opened Num
  import opened Simd
  import opened Math
  import Rast

  /** The `Tile` record: a borrowed `&mut [u32]` with its row pitch, and the
      rectangle of the frame the rasterizer walks. */
  datatype Tile = Tile(dst: array<int>, dstWidth: nat, position: Vec2<nat>, dimensions: Vec2<nat>)

  /** A `(T, T, T)` triple: one value per triangle edge. */
  datatype Edges = Edges(e0: Lanes, e1: Lanes, e2: Lanes)

  /** The three vertices `v1`, `v2`, `v3` handed to `new`. */
  datatype Triangle = Triangle(v1: Vec2<Lanes>, v2: Vec2<Lanes>, v3: Vec2<Lanes>)

  predicate LanesOf(v: Vec2<Lanes>, n: nat)
  {
    |v.x| == n && |v.y| == n
  }

  predicate TriLanes(t: Triangle, n: nat)
  {
    LanesOf(t.v1, n) && LanesOf(t.v2, n) && LanesOf(t.v3, n)
  }

  predicate EdgesLanes(e: Edges, n: nat)
  {
    |e.e0| == n && |e.e1| == n && |e.e2| == n
  }

  /** Lane-wise edge function of the point `p` shifted by (dx, dy) against
      the directed segment a -> b. */
  function EdgeAt(p: Vec2<Lanes>, a: Vec2<Lanes>, b: Vec2<Lanes>, dx: int, dy: int): (r: Lanes)
    requires LanesOf(a, |p.x|) && LanesOf(b, |p.x|) && |p.y| == |p.x|
    ensures |r| == |p.x|
    ensures forall j :: 0 <= j < |r| ==>
              r[j] == Rast.Edge(p.x[j] + dx, p.y[j] + dy, a.x[j], a.y[j], b.x[j] - a.x[j], b.y[j] - a.y[j])
  {
    seq(|p.x|, j requires 0 <= j < |p.x| =>
      Rast.Edge(p.x[j] + dx, p.y[j] + dy, a.x[j], a.y[j], b.x[j] - a.x[j], b.y[j] - a.y[j]))
  }

  /** The edge values at `p + (dx, dy)` against v2 -> v3, v3 -> v1 and v1 -> v2. */
  function EdgesAt(p: Vec2<Lanes>, t: Triangle, dx: int, dy: int): (r: Edges)
    requires LanesOf(p, |p.x|) && TriLanes(t, |p.x|)
    ensures EdgesLanes(r, |p.x|)
  {
    Edges(EdgeAt(p, t.v2, t.v3, dx, dy), EdgeAt(p, t.v3, t.v1, dx, dy), EdgeAt(p, t.v1, t.v2, dx, dy))
  }

  /** The per-column deltas `(-y3_y2, -y1_y3, -y2_y1)`. */
  function StepDeltas(t: Triangle): (r: Edges)
    requires TriLanes(t, |t.v1.x|)
    ensures EdgesLanes(r, |t.v1.x|)
  {
    Edges(Neg(Sub(t.v3.y, t.v2.y)), Neg(Sub(t.v1.y, t.v3.y)), Neg(Sub(t.v2.y, t.v1.y)))
  }

  /** The per-row deltas `(x3_x2, x1_x3, x2_x1)`. */
  function RowDeltas(t: Triangle): (r: Edges)
    requires TriLanes(t, |t.v1.x|)
    ensures EdgesLanes(r, |t.v1.x|)
  {
    Edges(Sub(t.v3.x, t.v2.x), Sub(t.v1.x, t.v3.x), Sub(t.v2.x, t.v1.x))
  }

  /** The expression `new` evaluates for one edge is the edge function of
      `p` against a -> b. */
  lemma {:induction false} SeedEdge(p: Vec2<Lanes>, a: Vec2<Lanes>, b: Vec2<Lanes>)
    requires LanesOf(a, |p.x|) && LanesOf(b, |p.x|) && |p.y| == |p.x|
    ensures Sub(Mul(Sub(b.x, a.x), Sub(p.y, a.y)), Mul(Sub(b.y, a.y), Sub(p.x, a.x))) == EdgeAt(p, a, b, 0, 0)
  {
    var e := Sub(Mul(Sub(b.x, a.x), Sub(p.y, a.y)), Mul(Sub(b.y, a.y), Sub(p.x, a.x)));
    forall j | 0 <= j < |p.x|
      ensures e[j] == EdgeAt(p, a, b, 0, 0)[j]
    {
    }
  }

  /** The `+=` of a triple: lane-wise addition edge by edge. */
  function AddEdges(a: Edges, b: Edges): (r: Edges)
    requires EdgesLanes(a, |a.e0|) && EdgesLanes(b, |a.e0|)
    ensures EdgesLanes(r, |a.e0|)
  {
    Edges(Add(a.e0, b.e0), Add(a.e1, b.e1), Add(a.e2, b.e2))
  }

  /** A lane is covered when all three of its edge values are non-negative. */
  function Covered(e: Edges): (r: LaneMask)
    requires EdgesLanes(e, |e.e0|)
    ensures |r| == |e.e0|
  {
    seq(|e.e0|, j requires 0 <= j < |e.e0| => e.e0[j] >= ZERO && e.e1[j] >= ZERO && e.e2[j] >= ZERO)
  }

  /** The column offset after k steps along rows of `w` columns. A zero width
      re-bases on every step, so the column never leaves 0. */
  function Col(w: nat, k: nat): nat
  {
    if w == 0 then 0 else k % w
  }

  /** The row offset after k steps along rows of `w` columns. */
  function Row(w: nat, k: nat): nat
  {
    if w == 0 then k else k / w
  }

  /** One step moves one column right, or to column 0 of the next row when the
      column reaches `w`. */
  lemma {:induction false} OffsetNext(w: nat, k: nat)
    ensures w > 0 ==> Col(w, k) < w
    ensures Col(w, k) + 1 < w ==> Col(w, k + 1) == Col(w, k) + 1 && Row(w, k + 1) == Row(w, k)
    ensures Col(w, k) + 1 >= w ==> Col(w, k + 1) == 0 && Row(w, k + 1) == Row(w, k) + 1
  {
    if w > 0 {
      var q, r := k / w, k % w;
      assert k == w * q + r;
      if r + 1 < w {
        DivModUnique(k + 1, w, q, r + 1);
      } else {
        assert k + 1 == w * (q + 1) + 0;
        DivModUnique(k + 1, w, q + 1, 0);
      }
    }
  }

  /** Adding the column deltas is the same as evaluating one column further
      right; adding the row deltas is evaluating one row further down. */
  lemma {:induction false} EdgeAtSteps(p: Vec2<Lanes>, a: Vec2<Lanes>, b: Vec2<Lanes>, dx: int, dy: int)
    requires LanesOf(a, |p.x|) && LanesOf(b, |p.x|) && |p.y| == |p.x|
    ensures Add(EdgeAt(p, a, b, dx, dy), Neg(Sub(b.y, a.y))) == EdgeAt(p, a, b, dx + 1, dy)
    ensures Add(EdgeAt(p, a, b, dx, dy), Sub(b.x, a.x)) == EdgeAt(p, a, b, dx, dy + 1)
  {
    var e := EdgeAt(p, a, b, dx, dy);
    forall j | 0 <= j < |p.x|
      ensures e[j] + -(b.y[j] - a.y[j]) == EdgeAt(p, a, b, dx + 1, dy)[j]
      ensures e[j] + (b.x[j] - a.x[j]) == EdgeAt(p, a, b, dx, dy + 1)[j]
    {
      Rast.EdgeSteps(p.x[j] + dx, p.y[j] + dy, a.x[j], a.y[j], b.x[j] - a.x[j], b.y[j] - a.y[j], 1, 0);
      Rast.EdgeSteps(p.x[j] + dx, p.y[j] + dy, a.x[j], a.y[j], b.x[j] - a.x[j], b.y[j] - a.y[j], 0, 1);
    }
  }

  /** `edge_add_step` walks one column, adding `row` walks one row. */
  lemma EdgesAtSteps(p: Vec2<Lanes>, t: Triangle, dx: int, dy: int)
    requires LanesOf(p, |p.x|) && TriLanes(t, |p.x|)
    ensures AddEdges(EdgesAt(p, t, dx, dy), StepDeltas(t)) == EdgesAt(p, t, dx + 1, dy)
    ensures AddEdges(EdgesAt(p, t, dx, dy), RowDeltas(t)) == EdgesAt(p, t, dx, dy + 1)
  {
    EdgeAtSteps(p, t.v2, t.v3, dx, dy);
    EdgeAtSteps(p, t.v3, t.v1, dx, dy);
    EdgeAtSteps(p, t.v1, t.v2, dx, dy);
  }

  /** The closed form moves exactly as `step` does: within a row the edges
      gain the column deltas, at the end of a row the row start gains the row
      deltas and becomes the current edges. */
  lemma {:induction false} StepClosedForm(p: Vec2<Lanes>, t: Triangle, w: nat, k: nat)
    requires LanesOf(p, |p.x|) && TriLanes(t, |p.x|)
    ensures w > 0 ==> Col(w, k) < w
    ensures Col(w, k) + 1 < w ==>
              && Col(w, k + 1) == Col(w, k) + 1
              && EdgesAt(p, t, Col(w, k + 1), Row(w, k + 1)) == AddEdges(EdgesAt(p, t, Col(w, k), Row(w, k)), StepDeltas(t))
              && EdgesAt(p, t, 0, Row(w, k + 1)) == EdgesAt(p, t, 0, Row(w, k))
    ensures Col(w, k) + 1 >= w ==>
              && Col(w, k + 1) == 0
              && EdgesAt(p, t, 0, Row(w, k + 1)) == AddEdges(EdgesAt(p, t, 0, Row(w, k)), RowDeltas(t))
  {
    OffsetNext(w, k);
    EdgesAtSteps(p, t, Col(w, k), Row(w, k));
    EdgesAtSteps(p, t, 0, Row(w, k));
  }

  /** The OR-then-sign test agrees with "all three non-negative" on every lane. */
  lemma CoveredByOr(e: Edges)
    requires EdgesLanes(e, |e.e0|)
    ensures Ge(Or(Or(e.e0, e.e1), e.e2), SimdZero(|e.e0|)) == Covered(e)
  {
    forall j | 0 <= j < |e.e0|
      ensures (BitOr(BitOr(e.e0[j], e.e1[j]), e.e2[j]) >= ZERO) == Covered(e)[j]
    {
      BitOrSign(e.e0[j], e.e1[j]);
      BitOrSign(BitOr(e.e0[j], e.e1[j]), e.e2[j]);
    }
  }

  /** `TriangleEdgeState<T>`. The ghost fields record the start point, the
      triangle and the number of steps taken, so that `Valid` can state the
      closed form of the incremental state. */
  class TriangleEdgeState {
    var i: nat
    const width: nat
    const step: Edges
    const row: Edges
    var edges: Edges
    var lastEdges: Edges

    ghost const lanes: nat
    ghost const p: Vec2<Lanes>
    ghost const tri: Triangle
    ghost var steps: nat

    /** After `steps` steps the state holds the edge values evaluated directly
        at column `Col(width, steps)` and row `Row(width, steps)` from `p`, and
        the saved row start holds those at column 0 of the same row. */
    ghost predicate Valid()
      reads this
    {
      && LanesOf(p, lanes) && TriLanes(tri, lanes)
      && step == StepDeltas(tri) && row == RowDeltas(tri)
      && i == Col(width, steps)
      && edges == EdgesAt(p, tri, Col(width, steps), Row(width, steps))
      && lastEdges == EdgesAt(p, tri, 0, Row(width, steps))
    }

    /** `TriangleEdgeState::new`. */
    constructor (width: nat, p: Vec2<Lanes>, v1: Vec2<Lanes>, v2: Vec2<Lanes>, v3: Vec2<Lanes>)
      requires LanesOf(p, |p.x|) && TriLanes(Triangle(v1, v2, v3), |p.x|)
      ensures Valid() && steps == 0 && this.p == p && tri == Triangle(v1, v2, v3)
      ensures this.width == width && lanes == |p.x|
      ensures i == 0 && lastEdges == edges
      ensures edges == EdgesAt(p, Triangle(v1, v2, v3), 0, 0)
      ensures step == StepDeltas(Triangle(v1, v2, v3)) && row == RowDeltas(Triangle(v1, v2, v3))
    {
      var x1_x3 := Sub(v1.x, v3.x);
      var x2_x1 := Sub(v2.x, v1.x);
      var x3_x2 := Sub(v3.x, v2.x);
      var y1_y3 := Sub(v1.y, v3.y);
      var y2_y1 := Sub(v2.y, v1.y);
      var y3_y2 := Sub(v3.y, v2.y);

      var e := Edges(
        Sub(Mul(x3_x2, Sub(p.y, v2.y)), Mul(y3_y2, Sub(p.x, v2.x))),
        Sub(Mul(x1_x3, Sub(p.y, v3.y)), Mul(y1_y3, Sub(p.x, v3.x))),
        Sub(Mul(x2_x1, Sub(p.y, v1.y)), Mul(y2_y1, Sub(p.x, v1.x))));

      i := 0;
      this.width := width;
      step := Edges(Neg(y3_y2), Neg(y1_y3), Neg(y2_y1));
      row := Edges(x3_x2, x1_x3, x2_x1);
      edges := e;
      lastEdges := e;
      lanes := |p.x|;
      this.p := p;
      tri := Triangle(v1, v2, v3);
      steps := 0;
      new;
      SeedEdge(p, v2, v3);
      SeedEdge(p, v3, v1);
      SeedEdge(p, v1, v2);
    }

    /** `edge_add_step`: every edge gains its column delta. */
    method EdgeAddStep()
      requires EdgesLanes(edges, |edges.e0|) && EdgesLanes(step, |edges.e0|)
      modifies this
      ensures edges == AddEdges(old(edges), step)
      ensures i == old(i) && lastEdges == old(lastEdges) && steps == old(steps)
    {
      edges := Edges(Add(edges.e0, step.e0), Add(edges.e1, step.e1), Add(edges.e2, step.e2));
    }

    /** `next_row_test`: once the column counter reaches `width`, the saved
        row start gains the row deltas, becomes the current edges, and the
        counter restarts at 0; otherwise nothing changes. */
    method NextRowTest()
      requires EdgesLanes(lastEdges, |lastEdges.e0|) && EdgesLanes(row, |lastEdges.e0|)
      modifies this
      ensures old(i) >= width ==> i == 0 && lastEdges == AddEdges(old(lastEdges), row) && edges == lastEdges
      ensures old(i) < width ==> i == old(i) && lastEdges == old(lastEdges) && edges == old(edges)
      ensures steps == old(steps)
    {
      if i >= width {
        lastEdges := Edges(Add(lastEdges.e0, row.e0), Add(lastEdges.e1, row.e1), Add(lastEdges.e2, row.e2));
        edges := lastEdges;
        i := 0;
      }
    }

    /** `step`: the state after one more step is again the direct evaluation,
        one column further (or at the start of the next row); the counter
        stays below a positive width. */
    method Step()
      requires Valid()
      modifies this
      ensures Valid() && steps == old(steps) + 1
      ensures width > 0 ==> i < width
      ensures old(i) + 1 < width ==> i == old(i) + 1 && edges == AddEdges(old(edges), step) && lastEdges == old(lastEdges)
      ensures old(i) + 1 >= width ==> i == 0 && lastEdges == AddEdges(old(lastEdges), row) && edges == lastEdges
    {
      ghost var k := steps;
      StepClosedForm(p, tri, width, k);
      OffsetNext(width, k + 1);
      EdgeAddStep();
      i := i + 1;
      NextRowTest();
      steps := k + 1;
    }

    /** `test` for a scalar (one-lane) `T`: true exactly when all three edge
        values are non-negative, because an OR of two's-complement values is
        negative iff one of its operands is. */
    function Test(): (r: bool)
      requires EdgesLanes(edges, 1)
      reads this
      ensures r <==> edges.e0[0] >= ZERO && edges.e1[0] >= ZERO && edges.e2[0] >= ZERO
    {
      BitOrSign(edges.e0[0], edges.e1[0]);
      BitOrSign(BitOr(edges.e0[0], edges.e1[0]), edges.e2[0]);
      BitOr(BitOr(edges.e0[0], edges.e1[0]), edges.e2[0]) >= ZERO
    }

    /** `mask`: the same test lane by lane. */
    function Mask(): (r: LaneMask)
      requires EdgesLanes(edges, |edges.e0|)
      reads this
      ensures r == Covered(edges)
    {
      CoveredByOr(edges);
      Ge(Or(Or(edges.e0, edges.e1), edges.e2), SimdZero(|edges.e0|))
    }

    /** On a single lane, `mask` is `test`. */
    lemma MaskIsTest()
      requires EdgesLanes(edges, 1)
      ensures Mask() == [Test()]
    {
    }
  }
}
