/**
 * Pixel colours and the per-pixel distance used by the scorer.
 *
 * A colour is Go's `color.RGBA`: four independent 8-bit channels. The
 * distance is the live branch of `calcDiff`: the sum of the squared
 * channel differences. Go computes it in float64; every term is an integer
 * of at most 255 * 255, so the model computes it exactly over `nat`.
 */
module Color {

  /** An unsigned 8-bit channel value. */
  type Byte = n: int | 0 <= n < 256

  datatype Rgba = Rgba(r: Byte, g: Byte, b: Byte, a: Byte)

  /** The zero colour, what `RGBAAt` returns outside an image's bounds. */
  const Transparent: Rgba := Rgba(0, 0, 0, 0)

  /** The background both working canvases start from. */
  const OpaqueBlack: Rgba := Rgba(0, 0, 0, 255)

  /** The largest distance two colours can have. */
  const MaxDistance: nat := 4 * 255 * 255

  /**
   * `n * n`, by the sum of the first |n| odd numbers. Written this way so
   * that distances stay linear facts for the solver; SquareIsProduct ties
   * it to the product the source computes.
   */
  function Square(n: int): nat
    decreases if n < 0 then 1 - n else n
  {
    if n < 0 then Square(-n) else if n == 0 then 0 else Square(n - 1) + 2 * n - 1
  }

  lemma {:induction false} SquareIsProduct(n: int)
    ensures Square(n) == n * n
    decreases if n < 0 then 1 - n else n
  {
    if n < 0 {
      SquareIsProduct(-n);
    } else if n > 0 {
      SquareIsProduct(n - 1);
    }
  }

  lemma SquareBounds(n: int)
    requires -255 <= n <= 255
    ensures Square(n) <= 255 * 255
    ensures Square(n) == 0 <==> n == 0
  {
    SquareIsProduct(n);
    var m := if n < 0 then -n else n;
    assert n * n == m * m;
    MulMonotone(m, m, 255);
    MulMonotone(255, m, 255);
    if m > 0 {
      MulMonotone(m, 1, m);
    }
  }

  lemma MulMonotone(a: nat, b: nat, c: nat)
    requires b <= c
    ensures a * b <= a * c
  {
  }

  /**
   * Squared Euclidean distance over the four channels R, G, B, A. It is
   * zero only for equal colours and never above MaxDistance.
   */
  function Distance(p: Rgba, q: Rgba): (d: nat)
    ensures d == 0 ==> p == q
    ensures d <= MaxDistance
  {
    SquareBounds(q.r - p.r);
    SquareBounds(q.g - p.g);
    SquareBounds(q.b - p.b);
    SquareBounds(q.a - p.a);
    Square(q.r - p.r) + Square(q.g - p.g) + Square(q.b - p.b) + Square(q.a - p.a)
  }

  /** The distance is zero exactly between equal colours. */
  lemma DistanceZero(p: Rgba, q: Rgba)
    ensures Distance(p, q) == 0 <==> p == q
  {
    if p == q {
      assert q.r - p.r == 0 && q.g - p.g == 0 && q.b - p.b == 0 && q.a - p.a == 0;
    }
  }

  lemma DistanceSymmetric(p: Rgba, q: Rgba)
    ensures Distance(p, q) == Distance(q, p)
  {
    assert Square(q.r - p.r) == Square(p.r - q.r);
    assert Square(q.g - p.g) == Square(p.g - q.g);
    assert Square(q.b - p.b) == Square(p.b - q.b);
    assert Square(q.a - p.a) == Square(p.a - q.a);
  }
}
