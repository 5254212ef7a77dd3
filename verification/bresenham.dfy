/**
 * The integer all-octant line walk that `line`, `bcopy` and `bdiff` each
 * spell out with the same loop. It is modelled once: Setup and Origin are the set-up
 * before the loop, Step is one pass of the loop body after the exit test,
 * and Walk is the sequence of points the loop visits.
 */
module Bresenham {
  import opened Geometry

  /** The values fixed before the loop: target, distances and directions. */
  datatype Walker = Walker(target: Point, dx: int, dy: int, sx: int, sy: int)

  /** The loop variables: the current point and the error term. */
  datatype Cursor = Cursor(x: int, y: int, err: int)

  /** The set-up before the loop: `dx`, `dy`, `sx`, `sy` for a line from `p0` to `p1`. */
  function Setup(p0: Point, p1: Point): Walker
  {
    Walker(p1, Abs(p1.x - p0.x), Abs(p1.y - p0.y),
           if p0.x < p1.x then 1 else -1,
           if p0.y < p1.y then 1 else -1)
  }

  /** The loop variables on entry: the first endpoint and `err := dx - dy`. */
  function Origin(p0: Point, p1: Point): Cursor
  {
    Cursor(p0.x, p0.y, Setup(p0, p1).dx - Setup(p0, p1).dy)
  }

  function Here(c: Cursor): Point
  {
    Point(c.x, c.y)
  }

  predicate AtTarget(w: Walker, c: Cursor)
  {
    c.x == w.target.x && c.y == w.target.y
  }

  /** The loop body after the exit test: the `e2` comparisons and updates. */
  function Step(w: Walker, c: Cursor): Cursor
  {
    var e2 := 2 * c.err;
    var stepX := e2 > -w.dy;
    var stepY := e2 < w.dx;
    Cursor(if stepX then c.x + w.sx else c.x,
           if stepY then c.y + w.sy else c.y,
           c.err - (if stepX then w.dy else 0) + (if stepY then w.dx else 0))
  }

  /** Steps still to take from `p` along each axis, counted toward the target. */
  function RemX(w: Walker, p: Point): int
  {
    if w.sx > 0 then w.target.x - p.x else p.x - w.target.x
  }

  function RemY(w: Walker, p: Point): int
  {
    if w.sy > 0 then w.target.y - p.y else p.y - w.target.y
  }

  /** The axis along which the line is longer; ties go to x. */
  predicate XMajor(w: Walker)
  {
    w.dx >= w.dy
  }

  /** Steps still to take from `p` along the major axis. */
  function MajorLeft(w: Walker, p: Point): int
  {
    if XMajor(w) then RemX(w, p) else RemY(w, p)
  }

  /** The termination measure of the loop. */
  function Major(w: Walker, c: Cursor): int
  {
    MajorLeft(w, Here(c))
  }

  /**
   * The bound the error term keeps relative to the ideal line. With `g` the
   * signed offset of the current point from the ideal line (scaled by the
   * line's extents), the walk keeps `g` within half a step on the major
   * axis, so that every step advances along the major axis.
   */
  predicate Balanced(w: Walker, g: int)
  {
    if XMajor(w) then
      (w.dx > 0 ==> -w.dx <= 2 * g < w.dx) && (w.dx == w.dy ==> g == 0)
    else
      -w.dy < 2 * g <= w.dy
  }

  /**
   * The product `a * b` (MulIsProduct), written as repeated addition so
   * that proofs about the walk reason about it through the lemmas below
   * only.
   */
  ghost function Mul(a: nat, b: nat): nat
  {
    if b == 0 then 0 else Mul(a, b - 1) + a
  }

  /** Mul is the product: the invariant OnTrack reads as err - dx + dy == dy * rx - dx * ry. */
  lemma {:induction false} MulIsProduct(a: nat, b: nat)
    ensures Mul(a, b) == a * b
    decreases b
  {
    if b > 0 {
      MulIsProduct(a, b - 1);
    }
  }

  lemma MulAtLeast(a: nat, b: nat)
    requires b >= 1
    ensures Mul(a, b) >= a
  {
  }

  /** Taking one step off the second factor takes one first factor off the product. */
  lemma MulLess(a: nat, b: nat, step: bool)
    requires step ==> b >= 1
    ensures Mul(a, if step then b - 1 else b) == Mul(a, b) - (if step then a else 0)
  {
  }

  lemma {:induction false} MulCommutes(a: nat, b: nat)
    ensures Mul(a, b) == Mul(b, a)
    decreases a + b
  {
    if a > 0 && b > 0 {
      MulCommutes(a - 1, b);
      MulCommutes(a, b - 1);
      MulCommutes(a - 1, b - 1);
    } else if a > 0 {
      MulCommutes(a - 1, b);
    } else if b > 0 {
      MulCommutes(a, b - 1);
    }
  }

  /** What holds at the top of every pass of the loop. */
  ghost predicate OnTrack(w: Walker, c: Cursor)
  {
    var rx := RemX(w, Here(c));
    var ry := RemY(w, Here(c));
    && (w.sx == 1 || w.sx == -1)
    && (w.sy == 1 || w.sy == -1)
    && w.dx >= 0 && w.dy >= 0
    && 0 <= rx <= w.dx
    && 0 <= ry <= w.dy
    && c.err - w.dx + w.dy == Mul(w.dy, rx) - Mul(w.dx, ry)
    && Balanced(w, c.err - w.dx + w.dy)
  }

  lemma StartOnTrack(p0: Point, p1: Point)
    ensures OnTrack(Setup(p0, p1), Origin(p0, p1))
    ensures Major(Setup(p0, p1), Origin(p0, p1)) == Max(Abs(p1.x - p0.x), Abs(p1.y - p0.y))
  {
    var w, c := Setup(p0, p1), Origin(p0, p1);
    assert RemX(w, Here(c)) == w.dx;
    assert RemY(w, Here(c)) == w.dy;
    MulCommutes(w.dx, w.dy);
  }

  /**
   * The arithmetic of one pass, with the products `dy * rx` and `dx * ry`
   * named `gx` and `gy`: which axes step, and that the error relation and
   * the balance bound survive the pass.
   */
  lemma StepArith(dx: int, dy: int, rx: int, ry: int, gx: int, gy: int, err: int)
    requires dx >= 0 && dy >= 0 && 0 <= rx <= dx && 0 <= ry <= dy
    requires rx != 0 || ry != 0
    requires err - dx + dy == gx - gy
    requires rx == 0 ==> gx == 0
    requires ry == 0 ==> gy == 0
    requires ry >= 1 ==> gy >= dx
    requires rx >= 1 ==> gx >= dy
    requires if dx >= dy then (dx > 0 ==> -dx <= 2 * (gx - gy) < dx) && (dx == dy ==> gx - gy == 0)
             else -dy < 2 * (gx - gy) <= dy
    ensures var stepX := 2 * err > -dy; var stepY := 2 * err < dx;
      && (rx == 0 ==> !stepX)
      && (ry == 0 ==> !stepY)
      && (dx >= dy ==> stepX)
      && (dx < dy ==> stepY)
      && var g' := gx - gy - (if stepX then dy else 0) + (if stepY then dx else 0);
         if dx >= dy then (dx > 0 ==> -dx <= 2 * g' < dx) && (dx == dy ==> g' == 0)
         else -dy < 2 * g' <= dy
  {
  }

  /** What one pass does to the loop variables, by the two `e2` tests. */
  lemma StepMoves(w: Walker, c: Cursor)
    requires (w.sx == 1 || w.sx == -1) && (w.sy == 1 || w.sy == -1)
    ensures var n := Step(w, c);
      var stepX := 2 * c.err > -w.dy;
      var stepY := 2 * c.err < w.dx;
      && n.x == (if stepX then c.x + w.sx else c.x)
      && n.y == (if stepY then c.y + w.sy else c.y)
      && RemX(w, Here(n)) == RemX(w, Here(c)) - (if stepX then 1 else 0)
      && RemY(w, Here(n)) == RemY(w, Here(c)) - (if stepY then 1 else 0)
      && n.err == c.err - (if stepX then w.dy else 0) + (if stepY then w.dx else 0)
  {
  }

  /**
   * The two `e2` tests never step past the target, always step the major
   * axis, and leave the error term balanced.
   */
  lemma StepDecides(w: Walker, c: Cursor)
    requires OnTrack(w, c) && !AtTarget(w, c)
    ensures var rx, ry := RemX(w, Here(c)), RemY(w, Here(c));
      var stepX, stepY := 2 * c.err > -w.dy, 2 * c.err < w.dx;
      && (rx == 0 ==> !stepX) && (ry == 0 ==> !stepY)
      && (XMajor(w) ==> stepX) && (!XMajor(w) ==> stepY)
      && Balanced(w, Mul(w.dy, rx) - Mul(w.dx, ry) - (if stepX then w.dy else 0) + (if stepY then w.dx else 0))
  {
    var rx, ry := RemX(w, Here(c)), RemY(w, Here(c));
    if ry >= 1 { MulAtLeast(w.dx, ry); }
    if rx >= 1 { MulAtLeast(w.dy, rx); }
    StepArith(w.dx, w.dy, rx, ry, Mul(w.dy, rx), Mul(w.dx, ry), c.err);
  }

  /** One pass keeps the error term tied to the remaining distances. */
  lemma StepKeepsError(w: Walker, c: Cursor)
    requires OnTrack(w, c) && !AtTarget(w, c)
    ensures var n := Step(w, c);
      n.err - w.dx + w.dy == Mul(w.dy, RemX(w, Here(n))) - Mul(w.dx, RemY(w, Here(n)))
  {
    var rx, ry := RemX(w, Here(c)), RemY(w, Here(c));
    var stepX, stepY := 2 * c.err > -w.dy, 2 * c.err < w.dx;
    StepDecides(w, c);
    StepMoves(w, c);
    MulLess(w.dy, rx, stepX);
    MulLess(w.dx, ry, stepY);
  }

  /**
   * One pass of the loop keeps the invariant, moves each coordinate by at
   * most one toward the target, and always advances one step along the
   * major axis; so the loop terminates after exactly Major steps.
   */
  lemma StepSound(w: Walker, c: Cursor)
    requires OnTrack(w, c) && !AtTarget(w, c)
    ensures OnTrack(w, Step(w, c))
    ensures Step(w, c).x == c.x || Step(w, c).x == c.x + w.sx
    ensures Step(w, c).y == c.y || Step(w, c).y == c.y + w.sy
    ensures Major(w, Step(w, c)) == Major(w, c) - 1
  {
    StepDecides(w, c);
    StepMoves(w, c);
    StepKeepsError(w, c);
  }

  /**
   * The points the loop visits from cursor `c`, in order: it starts at the
   * current point, ends at the target, and has one point more than the
   * steps left on the major axis.
   */
  function Walk(w: Walker, c: Cursor): (path: seq<Point>)
    requires OnTrack(w, c)
    ensures |path| == Major(w, c) + 1
    ensures path[0] == Here(c)
    ensures path[|path| - 1] == w.target
    decreases Major(w, c)
  {
    if AtTarget(w, c) then
      [Here(c)]
    else
      StepSound(w, c);
      [Here(c)] + Walk(w, Step(w, c))
  }

  /**
   * One move of the walk from `p` to `q`: each coordinate stays or moves one
   * in the walk's direction without passing the target, and the major axis
   * always moves.
   */
  predicate Advance(w: Walker, p: Point, q: Point)
  {
    && (q.x == p.x || q.x == p.x + w.sx)
    && (q.y == p.y || q.y == p.y + w.sy)
    && RemX(w, q) >= 0 && RemY(w, q) >= 0
    && MajorLeft(w, q) == MajorLeft(w, p) - 1
  }

  /**
   * Every move of the walk is an Advance, and the i-th point lies exactly
   * i major-axis steps after the first.
   */
  lemma {:induction false} WalkShape(w: Walker, c: Cursor)
    requires OnTrack(w, c)
    ensures forall i :: 0 <= i < |Walk(w, c)| - 1 ==> Advance(w, Walk(w, c)[i], Walk(w, c)[i + 1])
    ensures forall i :: 0 <= i < |Walk(w, c)| ==> MajorLeft(w, Walk(w, c)[i]) == Major(w, c) - i
    decreases Major(w, c)
  {
    if !AtTarget(w, c) {
      StepSound(w, c);
      var n := Step(w, c);
      WalkShape(w, n);
      var path := Walk(w, c);
      assert path == [Here(c)] + Walk(w, n);
      assert path[1] == Here(n);
      forall i | 0 <= i < |path| - 1
        ensures Advance(w, path[i], path[i + 1])
      {
        if i > 0 {
          assert path[i] == Walk(w, n)[i - 1];
        }
      }
    }
  }

  /**
   * The pixels `line`, `bcopy` and `bdiff` visit for endpoints `p0`, `p1`:
   * first `p0`, last `p1`, `max(|dx|, |dy|) + 1` points, and when the
   * endpoints coincide just that one point.
   */
  function Path(p0: Point, p1: Point): (path: seq<Point>)
    ensures |path| == Max(Abs(p1.x - p0.x), Abs(p1.y - p0.y)) + 1
    ensures path[0] == p0 && path[|path| - 1] == p1
    ensures p0 == p1 ==> path == [p0]
  {
    StartOnTrack(p0, p1);
    Walk(Setup(p0, p1), Origin(p0, p1))
  }

  /**
   * Each point of a path is a king's move from the one before it, never
   * farther from the last endpoint on either axis.
   */
  lemma PathSteps(p0: Point, p1: Point)
    ensures forall i :: 0 <= i < |Path(p0, p1)| - 1 ==> StepToward(Path(p0, p1)[i], Path(p0, p1)[i + 1], p1)
  {
    StartOnTrack(p0, p1);
    var w, c := Setup(p0, p1), Origin(p0, p1);
    var path := Path(p0, p1);
    WalkShape(w, c);
    forall i | 0 <= i < |path| - 1
      ensures StepToward(path[i], path[i + 1], p1)
    {
      AdvanceToward(w, path[i], path[i + 1]);
    }
  }

  lemma AdvanceToward(w: Walker, p: Point, q: Point)
    requires (w.sx == 1 || w.sx == -1) && (w.sy == 1 || w.sy == -1)
    requires Advance(w, p, q)
    ensures StepToward(p, q, w.target)
  {
  }

  /** No pixel is visited twice. */
  lemma PathDistinct(p0: Point, p1: Point)
    ensures forall i, j :: 0 <= i < j < |Path(p0, p1)| ==> Path(p0, p1)[i] != Path(p0, p1)[j]
  {
    StartOnTrack(p0, p1);
    var w, c := Setup(p0, p1), Origin(p0, p1);
    var path := Path(p0, p1);
    WalkShape(w, c);
    forall i, j | 0 <= i < j < |path|
      ensures path[i] != path[j]
    {
      assert MajorLeft(w, path[i]) != MajorLeft(w, path[j]);
    }
  }

  /** One unfolding of Walk: the current point, then the walk from the next cursor. */
  lemma WalkUnfold(w: Walker, c: Cursor)
    requires OnTrack(w, c) && !AtTarget(w, c)
    ensures OnTrack(w, Step(w, c))
    ensures Walk(w, c) == [Here(c)] + Walk(w, Step(w, c))
  {
    StepSound(w, c);
  }

  /** The second point of a path is where the first pass of the loop moves to. */
  lemma PathSecond(p0: Point, p1: Point)
    requires p0 != p1
    ensures |Path(p0, p1)| >= 2
    ensures Path(p0, p1)[1] == Here(Step(Setup(p0, p1), Origin(p0, p1)))
  {
    StartOnTrack(p0, p1);
    WalkUnfold(Setup(p0, p1), Origin(p0, p1));
  }

  /**
   * While the loop runs, `e2 = 2 * err` stays within three times the
   * longer of the two spans.
   */
  lemma ErrorBound(w: Walker, c: Cursor)
    requires OnTrack(w, c)
    ensures -3 * Max(w.dx, w.dy) <= 2 * c.err <= 3 * Max(w.dx, w.dy)
  {
  }

  /**
   * The error term can exceed both spans: on the line from (0,0) to (10,1)
   * the sixth pass leaves err = 13, so the next `e2` is 26, more than twice
   * dx = 10.
   */
  lemma ErrorOvershoot()
    ensures var w, c := Setup(Point(0, 0), Point(10, 1)), Origin(Point(0, 0), Point(10, 1));
            var c6 := Step(w, Step(w, Step(w, Step(w, Step(w, Step(w, c))))));
            w.dx == 10 && w.dy == 1 && c6.err == 13 && 2 * c6.err > 2 * w.dx
  {
    var w, c := Setup(Point(0, 0), Point(10, 1)), Origin(Point(0, 0), Point(10, 1));
    assert c == Cursor(0, 0, 9);
    assert Step(w, c) == Cursor(1, 0, 8);
    assert Step(w, Cursor(1, 0, 8)) == Cursor(2, 0, 7);
    assert Step(w, Cursor(2, 0, 7)) == Cursor(3, 0, 6);
    assert Step(w, Cursor(3, 0, 6)) == Cursor(4, 0, 5);
    assert Step(w, Cursor(4, 0, 5)) == Cursor(5, 0, 4);
    assert Step(w, Cursor(5, 0, 4)) == Cursor(6, 1, 13);
  }

  /**
   * Swapping the endpoints can change the pixels visited: ties in the error
   * term are broken in the walk's own direction, so the line from (0,0) to
   * (2,1) passes through (1,0) while the line back from (2,1) to (0,0)
   * passes through (1,1) instead.
   */
  lemma SwapChangesPixels()
    ensures Point(1, 0) in Path(Point(0, 0), Point(2, 1))
    ensures Point(1, 0) !in Path(Point(2, 1), Point(0, 0))
  {
    var a, b := Point(0, 0), Point(2, 1);
    PathSecond(a, b);
    assert Step(Setup(a, b), Origin(a, b)) == Cursor(1, 0, 0);
    PathSecond(b, a);
    assert Step(Setup(b, a), Origin(b, a)) == Cursor(1, 1, 0);
    var back := Path(b, a);
    assert |back| == 3;
    assert back == [back[0], back[1], back[2]];
  }
}
