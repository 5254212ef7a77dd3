/**
 * Images as Go's `image.RGBA` presents them to the engine: a width, a
 * height and the pixels row by row. Reads outside the bounds yield the zero
 * colour and writes outside the bounds are ignored, as `RGBAAt` and
 * `SetRGBA` do. The bounds are taken to start at the origin; a non-zero
 * origin, which an offset first GIF frame gives, is not modelled.
 */
module Canvas {
  import opened Geometry
  import opened Color

  datatype Image = Image(width: nat, height: nat, rows: seq<seq<Rgba>>)

  /** The pixel rows agree with the declared dimensions. */
  predicate Valid(img: Image)
  {
    && |img.rows| == img.height
    && forall y :: 0 <= y < |img.rows| ==> |img.rows[y]| == img.width
  }

  predicate SameSize(a: Image, b: Image)
  {
    a.width == b.width && a.height == b.height
  }

  predicate InBounds(img: Image, p: Point)
  {
    0 <= p.x < img.width && 0 <= p.y < img.height
  }

  /** `RGBAAt`: the pixel at `p`, or the zero colour outside the image. */
  function At(img: Image, p: Point): Rgba
    requires Valid(img)
  {
    if InBounds(img, p) then img.rows[p.y][p.x] else Transparent
  }

  /** `SetRGBA`: overwrite the pixel at `p`; a no-op outside the image. */
  function Set(img: Image, p: Point, c: Rgba): (r: Image)
    requires Valid(img)
    ensures Valid(r) && SameSize(r, img)
    ensures forall q :: At(r, q) == if q == p && InBounds(img, p) then c else At(img, q)
  {
    if InBounds(img, p) then
      Image(img.width, img.height, img.rows[p.y := img.rows[p.y][p.x := c]])
    else
      img
  }

  /** `NewRGBA` followed by a `draw.Draw` of a uniform colour over the bounds. */
  function Uniform(width: nat, height: nat, c: Rgba): (r: Image)
    ensures Valid(r) && r.width == width && r.height == height
    ensures forall p :: At(r, p) == if InBounds(r, p) then c else Transparent
  {
    Image(width, height, seq(height, _ => seq(width, _ => c)))
  }

  /** Two images of one size that agree on every pixel are the same value. */
  lemma Extensionality(a: Image, b: Image)
    requires Valid(a) && Valid(b) && SameSize(a, b)
    requires forall p :: InBounds(a, p) ==> At(a, p) == At(b, p)
    ensures a == b
  {
    forall y | 0 <= y < a.height
      ensures a.rows[y] == b.rows[y]
    {
      forall x | 0 <= x < a.width
        ensures a.rows[y][x] == b.rows[y][x]
      {
        assert At(a, Point(x, y)) == At(b, Point(x, y));
      }
    }
  }

  /** Sum of pixel distances between two rows, position by position. */
  function RowDistance(s: seq<Rgba>, t: seq<Rgba>): nat
    requires |s| == |t|
  {
    if |s| == 0 then 0 else Distance(s[0], t[0]) + RowDistance(s[1..], t[1..])
  }

  /** Sum of pixel distances between two grids of rows. */
  function GridDistance(s: seq<seq<Rgba>>, t: seq<seq<Rgba>>): nat
    requires |s| == |t|
    requires forall y :: 0 <= y < |s| ==> |s[y]| == |t[y]|
  {
    if |s| == 0 then 0 else RowDistance(s[0], t[0]) + GridDistance(s[1..], t[1..])
  }

  /**
   * The score of a candidate against the reference over the whole image:
   * what the engine approximates but never computes, because it scores
   * only the pixels a proposal touches.
   */
  function TotalDistance(a: Image, b: Image): nat
    requires Valid(a) && Valid(b) && SameSize(a, b)
  {
    GridDistance(a.rows, b.rows)
  }

  lemma {:induction false} RowDistanceUpdate(s: seq<Rgba>, t: seq<Rgba>, i: nat, c: Rgba)
    requires |s| == |t| && i < |t|
    ensures RowDistance(s, t[i := c]) == RowDistance(s, t) - Distance(s[i], t[i]) + Distance(s[i], c)
    decreases i
  {
    if i > 0 {
      RowDistanceUpdate(s[1..], t[1..], i - 1, c);
      assert t[i := c][1..] == t[1..][i - 1 := c];
    }
  }

  lemma {:induction false} GridDistanceUpdate(s: seq<seq<Rgba>>, t: seq<seq<Rgba>>, y: nat, x: nat, c: Rgba)
    requires |s| == |t| && forall k :: 0 <= k < |s| ==> |s[k]| == |t[k]|
    requires y < |t| && x < |t[y]|
    ensures GridDistance(s, t[y := t[y][x := c]])
         == GridDistance(s, t) - Distance(s[y][x], t[y][x]) + Distance(s[y][x], c)
    decreases y
  {
    if y == 0 {
      RowDistanceUpdate(s[0], t[0], x, c);
      assert t[y := t[y][x := c]][1..] == t[1..];
    } else {
      GridDistanceUpdate(s[1..], t[1..], y - 1, x, c);
      assert t[y := t[y][x := c]][1..] == t[1..][y - 1 := t[y][x := c]];
    }
  }

  /**
   * Overwriting one pixel changes the whole-image score by exactly the
   * change of that pixel's own distance.
   */
  lemma TotalDistanceSet(src: Image, img: Image, p: Point, c: Rgba)
    requires Valid(src) && Valid(img) && SameSize(src, img)
    ensures TotalDistance(src, Set(img, p, c))
         == TotalDistance(src, img) - Distance(At(src, p), At(img, p)) + Distance(At(src, p), At(Set(img, p, c), p))
  {
    if InBounds(img, p) {
      GridDistanceUpdate(src.rows, img.rows, p.y, p.x, c);
    }
  }

  lemma {:induction false} RowDistanceSelf(s: seq<Rgba>)
    ensures RowDistance(s, s) == 0
    decreases |s|
  {
    if |s| > 0 {
      RowDistanceSelf(s[1..]);
    }
  }

  lemma {:induction false} RowDistanceSymmetric(s: seq<Rgba>, t: seq<Rgba>)
    requires |s| == |t|
    ensures RowDistance(s, t) == RowDistance(t, s)
    decreases |s|
  {
    if |s| > 0 {
      DistanceSymmetric(s[0], t[0]);
      RowDistanceSymmetric(s[1..], t[1..]);
    }
  }

  lemma {:induction false} GridDistanceSelf(s: seq<seq<Rgba>>)
    ensures GridDistance(s, s) == 0
    decreases |s|
  {
    if |s| > 0 {
      RowDistanceSelf(s[0]);
      GridDistanceSelf(s[1..]);
    }
  }

  /** An image is at distance zero from itself. */
  lemma TotalDistanceSelf(a: Image)
    requires Valid(a)
    ensures TotalDistance(a, a) == 0
  {
    GridDistanceSelf(a.rows);
  }

  /** The whole-image score does not depend on the order of its arguments. */
  lemma TotalDistanceSymmetric(a: Image, b: Image)
    requires Valid(a) && Valid(b) && SameSize(a, b)
    ensures TotalDistance(a, b) == TotalDistance(b, a)
  {
    GridDistanceSymmetric(a.rows, b.rows);
  }

  lemma {:induction false} GridDistanceSymmetric(s: seq<seq<Rgba>>, t: seq<seq<Rgba>>)
    requires |s| == |t| && forall k :: 0 <= k < |s| ==> |s[k]| == |t[k]|
    ensures GridDistance(s, t) == GridDistance(t, s)
    decreases |s|
  {
    if |s| > 0 {
      RowDistanceSymmetric(s[0], t[0]);
      GridDistanceSymmetric(s[1..], t[1..]);
    }
  }
}
