/** Integer grid points, shared by the rasterizer and the canvases. */
module Geometry {

  datatype Point = Point(x: int, y: int)

  function Abs(n: int): (r: nat)
    ensures r == n || r == -n
  {
    if n < 0 then -n else n
  }

  function Max(a: int, b: int): (r: int)
    ensures r >= a && r >= b
    ensures r == a || r == b
  {
    if a >= b then a else b
  }

  /**
   * `q` is a king's move from `p` (a different point at most one away on
   * each axis) that comes no farther from `t` on either axis.
   */
  predicate StepToward(p: Point, q: Point, t: Point)
  {
    && p != q
    && Abs(q.x - p.x) <= 1 && Abs(q.y - p.y) <= 1
    && Abs(t.x - q.x) <= Abs(t.x - p.x)
    && Abs(t.y - q.y) <= Abs(t.y - p.y)
  }
}
