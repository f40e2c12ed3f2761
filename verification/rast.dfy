/** The older scalar revision of the rasterizer (`hedra/src/rast.rs`): the
    frame and block records, the `u32` to `i32` point cast and the edge
    function every revision is built on. */
module Rast {
  import opened Num

  datatype Point<T> = Point(x: T, y: T)

  type Pixel = Point<u32>

  /** A borrowed frame buffer: `dst` is the `&mut [u32]` slice. */
  datatype Frame = Frame(dst: array<int>, width: u32, height: u32)

  datatype Block = Block(min: Pixel, max: Pixel)

  /** A `[Point<T>; 3]` triangle. */
  datatype Tri3<T> = Tri3(v0: Point<T>, v1: Point<T>, v2: Point<T>)

  datatype TriangleRasterizerData = TriangleRasterizerData(frame: Frame, block: Block, list: seq<Tri3<u32>>)

  /** `From<Pixel> for Point<i32>`: each coordinate is cast with `as i32`. */
  function PointFromPixel(v: Pixel): (r: Point<int>)
    ensures I32_MIN <= r.x <= I32_MAX && I32_MIN <= r.y <= I32_MAX
    ensures (v.x - r.x) % 0x1_0000_0000 == 0 && (v.y - r.y) % 0x1_0000_0000 == 0
    ensures v.x <= I32_MAX ==> r.x == v.x
    ensures v.y <= I32_MAX ==> r.y == v.y
  {
    Point(AsI32(v.x), AsI32(v.y))
  }

  /** The edge function: twice the signed area of the triangle formed by the
      segment from (v1x, v1y) along (dvx, dvy) and the point (x, y). It is
      zero exactly when the point lies on the segment's line, that is when its
      offset from the start is parallel to the direction, and it is zero
      everywhere for a degenerate segment. */
  function Edge(x: int, y: int, v1x: int, v1y: int, dvx: int, dvy: int): (r: int)
    ensures r == 0 <==> dvx * (y - v1y) == dvy * (x - v1x)
    ensures dvx == 0 && dvy == 0 ==> r == 0
  {
    (dvx * (y - v1y)) - (dvy * (x - v1x))
  }

  /** The edge function of a point against the directed segment a -> b. */
  function EdgeOf(x: int, y: int, a: Point<int>, b: Point<int>): int
  {
    Edge(x, y, a.x, a.y, b.x - a.x, b.y - a.y)
  }

  /** Both end points of the segment lie on its line. */
  lemma EdgeZeroAtEnds(v1x: int, v1y: int, dvx: int, dvy: int)
    ensures Edge(v1x, v1y, v1x, v1y, dvx, dvy) == 0
    ensures Edge(v1x + dvx, v1y + dvy, v1x, v1y, dvx, dvy) == 0
  {
  }

  /** The edge function is affine: one column right subtracts dvy, one row
      down adds dvx, which is what makes incremental stepping possible. */
  lemma EdgeSteps(x: int, y: int, v1x: int, v1y: int, dvx: int, dvy: int, dx: int, dy: int)
    ensures Edge(x + dx, y + dy, v1x, v1y, dvx, dvy) == Edge(x, y, v1x, v1y, dvx, dvy) - dx * dvy + dy * dvx
    ensures Edge(x + 1, y, v1x, v1y, dvx, dvy) == Edge(x, y, v1x, v1y, dvx, dvy) - dvy
    ensures Edge(x, y + 1, v1x, v1y, dvx, dvy) == Edge(x, y, v1x, v1y, dvx, dvy) + dvx
  {
    assert dvx * (y + dy - v1y) == dvx * (y - v1y) + dy * dvx;
    assert dvy * (x + dx - v1x) == dvy * (x - v1x) + dx * dvy;
  }

  /** Reversing the segment (start at its end, negated delta) negates the value. */
  lemma EdgeReversed(x: int, y: int, v1x: int, v1y: int, dvx: int, dvy: int)
    ensures Edge(x, y, v1x + dvx, v1y + dvy, -dvx, -dvy) == -Edge(x, y, v1x, v1y, dvx, dvy)
  {
  }
}
