/**
 * The three actions the engine performs along a line: draw a colour
 * (`line`), copy pixels from one canvas to another (`bcopy`), and sum the
 * per-pixel distance between two images (`bdiff`, with `calcDiff`).
 *
 * Each is defined once over a sequence of points (DrawAlong, CopyAlong,
 * DiffAlong) and once as the source's loop over the Bresenham walk (Line,
 * BCopy, BDiff); the loops are proved to compute the sequence versions over
 * Bresenham.Path, so all three visit exactly the same pixels.
 */
module Raster {
  import opened Geometry
  import opened Color
  import opened Canvas
  import opened Bresenham

  /** `calcDiff`: the distance between the two images' pixels at `p`. */
  function CalcDiff(a: Image, b: Image, p: Point): (d: nat)
    requires Valid(a) && Valid(b)
    ensures d == 0 ==> At(a, p) == At(b, p)
  {
    Distance(At(a, p), At(b, p))
  }

  /** Write `clr` at every point of `path`, in order. */
  function DrawAlong(img: Image, path: seq<Point>, clr: Rgba): (r: Image)
    requires Valid(img)
    ensures Valid(r) && SameSize(r, img)
    decreases |path|
  {
    if |path| == 0 then img else DrawAlong(Set(img, path[0], clr), path[1..], clr)
  }

  /** Copy the pixel of `src` into `dst` at every point of `path`, in order. */
  function CopyAlong(dst: Image, src: Image, path: seq<Point>): (r: Image)
    requires Valid(dst) && Valid(src)
    ensures Valid(r) && SameSize(r, dst)
    decreases |path|
  {
    if |path| == 0 then dst else CopyAlong(Set(dst, path[0], At(src, path[0])), src, path[1..])
  }

  /** The sum of CalcDiff over the points of `path`. */
  function DiffAlong(a: Image, b: Image, path: seq<Point>): nat
    requires Valid(a) && Valid(b)
    decreases |path|
  {
    if |path| == 0 then 0 else CalcDiff(a, b, path[0]) + DiffAlong(a, b, path[1..])
  }

  /**
   * Drawing changes exactly the in-bounds points of the path, each to the
   * drawn colour; every other pixel keeps its value.
   */
  lemma {:induction false} DrawAlongConfined(img: Image, path: seq<Point>, clr: Rgba)
    requires Valid(img)
    ensures forall q :: At(DrawAlong(img, path, clr), q)
                     == if q in path && InBounds(img, q) then clr else At(img, q)
    decreases |path|
  {
    if |path| > 0 {
      DrawAlongConfined(Set(img, path[0], clr), path[1..], clr);
      assert forall q :: q in path <==> q == path[0] || q in path[1..];
    }
  }

  /**
   * Copying makes `dst` agree with `src` on the in-bounds points of the
   * path and leaves every other pixel of `dst` as it was.
   */
  lemma {:induction false} CopyAlongConfined(dst: Image, src: Image, path: seq<Point>)
    requires Valid(dst) && Valid(src)
    ensures forall q :: At(CopyAlong(dst, src, path), q)
                     == if q in path && InBounds(dst, q) then At(src, q) else At(dst, q)
    decreases |path|
  {
    if |path| > 0 {
      CopyAlongConfined(Set(dst, path[0], At(src, path[0])), src, path[1..]);
      assert forall q :: q in path <==> q == path[0] || q in path[1..];
    }
  }

  /** After a copy between images of one size, `dst` agrees with `src` at every point of the path. */
  lemma CopyAlongAgrees(dst: Image, src: Image, path: seq<Point>)
    requires Valid(dst) && Valid(src) && SameSize(dst, src)
    ensures forall q :: q in path ==> At(CopyAlong(dst, src, path), q) == At(src, q)
  {
    CopyAlongConfined(dst, src, path);
    forall q | q in path && !InBounds(dst, q)
      ensures At(dst, q) == At(src, q)
    {
      assert !InBounds(src, q);
    }
  }

  /** The path score depends only on the two images' pixels on the path. */
  lemma {:induction false} DiffAlongLocal(a: Image, b: Image, a': Image, b': Image, path: seq<Point>)
    requires Valid(a) && Valid(b) && Valid(a') && Valid(b')
    requires forall i :: 0 <= i < |path| ==> At(a, path[i]) == At(a', path[i]) && At(b, path[i]) == At(b', path[i])
    ensures DiffAlong(a, b, path) == DiffAlong(a', b', path)
    decreases |path|
  {
    if |path| > 0 {
      DiffAlongLocal(a, b, a', b', path[1..]);
    }
  }

  /** The path score is zero exactly when the images agree along the path. */
  lemma {:induction false} DiffAlongZero(a: Image, b: Image, path: seq<Point>)
    requires Valid(a) && Valid(b)
    ensures DiffAlong(a, b, path) == 0 <==> forall q :: q in path ==> At(a, q) == At(b, q)
    decreases |path|
  {
    if |path| > 0 {
      DiffAlongZero(a, b, path[1..]);
      assert forall q :: q in path <==> q == path[0] || q in path[1..];
    }
  }

  /** The path score does not depend on the order of the two images. */
  lemma {:induction false} DiffAlongSymmetric(a: Image, b: Image, path: seq<Point>)
    requires Valid(a) && Valid(b)
    ensures DiffAlong(a, b, path) == DiffAlong(b, a, path)
    decreases |path|
  {
    if |path| > 0 {
      DistanceSymmetric(At(a, path[0]), At(b, path[0]));
      DiffAlongSymmetric(a, b, path[1..]);
    }
  }

  /**
   * Points outside two same-sized images add nothing to the path score:
   * both reads give the zero colour there.
   */
  lemma OutsideAddsNothing(a: Image, b: Image, p: Point)
    requires Valid(a) && Valid(b) && SameSize(a, b) && !InBounds(a, p)
    ensures CalcDiff(a, b, p) == 0
  {
    assert !InBounds(b, p);
    DistanceZero(At(a, p), At(b, p));
  }

  /**
   * Copying `src` into `dst` along a path that visits no point twice moves
   * the whole-image score of `dst` against `ref` by exactly the difference
   * of the two path scores.
   */
  lemma {:induction false} CopyAlongTotal(ref: Image, dst: Image, src: Image, path: seq<Point>)
    requires Valid(ref) && Valid(dst) && Valid(src) && SameSize(ref, dst) && SameSize(dst, src)
    requires forall i, j :: 0 <= i < j < |path| ==> path[i] != path[j]
    ensures TotalDistance(ref, CopyAlong(dst, src, path))
         == TotalDistance(ref, dst) - DiffAlong(ref, dst, path) + DiffAlong(ref, src, path)
    decreases |path|
  {
    if |path| > 0 {
      var p, rest := path[0], path[1..];
      var dst' := Set(dst, p, At(src, p));
      assert CopyAlong(dst, src, path) == CopyAlong(dst', src, rest);
      CopyAlongTotal(ref, dst', src, rest);
      forall i | 0 <= i < |rest|
        ensures At(ref, rest[i]) == At(ref, rest[i]) && At(dst', rest[i]) == At(dst, rest[i])
      {
        assert rest[i] == path[i + 1];
      }
      DiffAlongLocal(ref, dst', ref, dst, rest);
      CopyOneTotal(ref, dst, src, p);
    }
  }

  /** Copying one pixel moves the whole-image score by that pixel's change. */
  lemma CopyOneTotal(ref: Image, dst: Image, src: Image, p: Point)
    requires Valid(ref) && Valid(dst) && Valid(src) && SameSize(ref, dst) && SameSize(dst, src)
    ensures TotalDistance(ref, Set(dst, p, At(src, p)))
         == TotalDistance(ref, dst) - CalcDiff(ref, dst, p) + CalcDiff(ref, src, p)
  {
    var c := At(src, p);
    TotalDistanceSet(ref, dst, p, c);
    assert At(Set(dst, p, c), p) == c;
  }

  /**
   * `line`: the source's loop, writing `clr` at the current point before
   * the exit test. It draws `clr` exactly on the in-bounds pixels of
   * Path(p0, p1) and changes nothing else.
   */
  method Line(img: Image, p0: Point, p1: Point, clr: Rgba) returns (r: Image)
    requires Valid(img)
    ensures r == DrawAlong(img, Path(p0, p1), clr)
    ensures Valid(r) && SameSize(r, img)
    ensures forall q :: At(r, q) == if q in Path(p0, p1) && InBounds(img, q) then clr else At(img, q)
  {
    var w, c := Setup(p0, p1), Origin(p0, p1);
    StartOnTrack(p0, p1);
    r := img;
    while true
      invariant OnTrack(w, c) && Valid(r)
      invariant DrawAlong(r, Walk(w, c), clr) == DrawAlong(img, Path(p0, p1), clr)
      decreases Major(w, c)
    {
      r := Set(r, Here(c), clr);
      if AtTarget(w, c) {
        break;
      }
      StepSound(w, c);
      c := Step(w, c);
    }
    DrawAlongConfined(img, Path(p0, p1), clr);
  }

  /**
   * `bcopy`: the source's loop, copying the pixel of `src` into `dst` at
   * the current point before the exit test. `dst` ends equal to `src` on
   * the in-bounds pixels of Path(p0, p1) and unchanged elsewhere; `src` is
   * only read.
   */
  method BCopy(dst: Image, src: Image, p0: Point, p1: Point) returns (r: Image)
    requires Valid(dst) && Valid(src)
    ensures r == CopyAlong(dst, src, Path(p0, p1))
    ensures Valid(r) && SameSize(r, dst)
    ensures forall q :: At(r, q) == if q in Path(p0, p1) && InBounds(dst, q) then At(src, q) else At(dst, q)
  {
    var w, c := Setup(p0, p1), Origin(p0, p1);
    StartOnTrack(p0, p1);
    r := dst;
    while true
      invariant OnTrack(w, c) && Valid(r)
      invariant CopyAlong(r, src, Walk(w, c)) == CopyAlong(dst, src, Path(p0, p1))
      decreases Major(w, c)
    {
      r := Set(r, Here(c), At(src, Here(c)));
      if AtTarget(w, c) {
        break;
      }
      StepSound(w, c);
      c := Step(w, c);
    }
    CopyAlongConfined(dst, src, Path(p0, p1));
  }

  /**
   * `bdiff`: the source's loop, adding `calcDiff` at the current point
   * before the exit test. It returns the sum of the per-pixel distances
   * over exactly the pixels of Path(p0, p1), the ones Line and BCopy touch.
   */
  method BDiff(a: Image, b: Image, p0: Point, p1: Point) returns (dif: nat)
    requires Valid(a) && Valid(b)
    ensures dif == DiffAlong(a, b, Path(p0, p1))
  {
    var w, c := Setup(p0, p1), Origin(p0, p1);
    StartOnTrack(p0, p1);
    dif := 0;
    while true
      invariant OnTrack(w, c)
      invariant dif + DiffAlong(a, b, Walk(w, c)) == DiffAlong(a, b, Path(p0, p1))
      decreases Major(w, c)
    {
      dif := dif + CalcDiff(a, b, Here(c));
      if AtTarget(w, c) {
        return;
      }
      StepSound(w, c);
      c := Step(w, c);
    }
  }
}
