/**
 * The palette the engine draws from: every pixel of the input image in
 * raster order (row by row, left to right), or, in unique mode, each
 * colour once, in the order of its first appearance.
 */
module Palette {
  import opened Geometry
  import opened Color
  import opened Canvas

  /** The rows laid end to end. */
  function Flatten(rows: seq<seq<Rgba>>): seq<Rgba>
  {
    if |rows| == 0 then [] else Flatten(rows[..|rows| - 1]) + rows[|rows| - 1]
  }

  /** The image's pixels in raster order. */
  function RasterOrder(img: Image): seq<Rgba>
  {
    Flatten(img.rows)
  }

  /** The position of the first occurrence of `x` in `s`. */
  function FirstIndex(s: seq<Rgba>, x: Rgba): (k: nat)
    requires x in s
    ensures k < |s| && s[k] == x && x !in s[..k]
    decreases |s|
  {
    if x in s[..|s| - 1] then FirstIndex(s[..|s| - 1], x) else |s| - 1
  }

  /** `s` with every repeated colour after its first occurrence dropped. */
  function Dedup(s: seq<Rgba>): seq<Rgba>
    decreases |s|
  {
    if |s| == 0 then []
    else if s[|s| - 1] in s[..|s| - 1] then Dedup(s[..|s| - 1])
    else Dedup(s[..|s| - 1]) + [s[|s| - 1]]
  }

  /** The palette `sketch` builds in the given mode. */
  function PaletteOf(img: Image, uniq: bool): seq<Rgba>
  {
    if uniq then Dedup(RasterOrder(img)) else RasterOrder(img)
  }

  /** A non-empty image gives a non-empty palette in either mode, so a colour can always be drawn. */
  lemma PaletteNonEmpty(img: Image, uniq: bool)
    requires Valid(img) && img.width > 0 && img.height > 0
    ensures |PaletteOf(img, uniq)| >= 1
  {
    RasterLength(img);
    MulMonotone(img.width, 1, img.height);
    DedupLength(RasterOrder(img));
  }

  predicate Distinct(s: seq<Rgba>)
  {
    forall i, j :: 0 <= i < j < |s| ==> s[i] != s[j]
  }

  /** Each row holds `width` pixels, so the raster has width * height of them. */
  lemma {:induction false} FlattenLength(rows: seq<seq<Rgba>>, width: nat)
    requires forall y :: 0 <= y < |rows| ==> |rows[y]| == width
    ensures |Flatten(rows)| == |rows| * width
    decreases |rows|
  {
    if |rows| > 0 {
      FlattenLength(rows[..|rows| - 1], width);
    }
  }

  /** Pixel (x, y) sits at position y * width + x of the flattened rows. */
  lemma {:induction false} FlattenIndex(rows: seq<seq<Rgba>>, width: nat, x: nat, y: nat)
    requires forall r :: 0 <= r < |rows| ==> |rows[r]| == width
    requires x < width && y < |rows|
    ensures y * width + x < |Flatten(rows)|
    ensures Flatten(rows)[y * width + x] == rows[y][x]
    decreases |rows|
  {
    var init := rows[..|rows| - 1];
    FlattenLength(init, width);
    FlattenLength(rows, width);
    if y < |rows| - 1 {
      FlattenIndex(init, width, x, y);
    } else {
      assert y * width == |Flatten(init)|;
    }
  }

  /** All mode: the palette has one entry per pixel, w * h in all. */
  lemma RasterLength(img: Image)
    requires Valid(img)
    ensures |RasterOrder(img)| == img.width * img.height
  {
    FlattenLength(img.rows, img.width);
  }

  /** All mode: entry y * w + x of the palette is the pixel at (x, y). */
  lemma RasterAt(img: Image, x: nat, y: nat)
    requires Valid(img) && x < img.width && y < img.height
    ensures y * img.width + x < |RasterOrder(img)|
    ensures RasterOrder(img)[y * img.width + x] == At(img, Point(x, y))
  {
    FlattenIndex(img.rows, img.width, x, y);
  }

  /** Every entry of the raster is some pixel (x, y), namely the one at y = k / w, x = k % w. */
  lemma RasterEntry(img: Image, k: nat)
    requires Valid(img) && k < |RasterOrder(img)|
    ensures img.width > 0 && k / img.width < img.height
    ensures RasterOrder(img)[k] == At(img, Point(k % img.width, k / img.width))
  {
    RasterLength(img);
    var w := img.width;
    QuotientBound(k, w, img.height);
    RasterAt(img, k % w, k / w);
    assert (k / w) * w + k % w == k;
  }

  /** k < h * w  implies  k / w < h. */
  lemma QuotientBound(k: nat, w: nat, h: nat)
    requires w > 0 && k < w * h
    ensures k / w < h
  {
    if k / w >= h {
      MulMonotone(w, h, k / w);
    }
  }

  /** Every palette entry of all mode is the colour of some pixel of the image. */
  lemma RasterFromImage(img: Image, c: Rgba)
    requires Valid(img) && c in RasterOrder(img)
    ensures exists x, y :: 0 <= x < img.width && 0 <= y < img.height && At(img, Point(x, y)) == c
  {
    var k :| 0 <= k < |RasterOrder(img)| && RasterOrder(img)[k] == c;
    RasterEntry(img, k);
    assert At(img, Point(k % img.width, k / img.width)) == c;
  }

  /** The colour of every pixel of the image is in the all-mode palette. */
  lemma ImageInRaster(img: Image, x: nat, y: nat)
    requires Valid(img) && x < img.width && y < img.height
    ensures At(img, Point(x, y)) in RasterOrder(img)
  {
    RasterAt(img, x, y);
  }

  /** Unique mode keeps no colour twice. */
  lemma {:induction false} DedupDistinct(s: seq<Rgba>)
    ensures Distinct(Dedup(s))
    decreases |s|
  {
    if |s| > 0 {
      DedupDistinct(s[..|s| - 1]);
      DedupElements(s[..|s| - 1]);
    }
  }

  /** Unique mode keeps every colour: it has exactly the elements of the input. */
  lemma {:induction false} DedupElements(s: seq<Rgba>)
    ensures forall c :: c in Dedup(s) <==> c in s
    decreases |s|
  {
    if |s| > 0 {
      var init := s[..|s| - 1];
      DedupElements(init);
      assert s == init + [s[|s| - 1]];
    }
  }

  /**
   * Unique mode lists colours in the order of their first appearance in
   * the input.
   */
  lemma {:induction false} DedupOrder(s: seq<Rgba>)
    ensures forall c :: c in Dedup(s) ==> c in s
    ensures forall i, j :: 0 <= i < j < |Dedup(s)| ==> FirstIndex(s, Dedup(s)[i]) < FirstIndex(s, Dedup(s)[j])
    decreases |s|
  {
    DedupElements(s);
    if |s| > 0 {
      var init := s[..|s| - 1];
      var last := s[|s| - 1];
      DedupOrder(init);
      DedupElements(init);
      var d := Dedup(init);
      forall c | c in d
        ensures FirstIndex(s, c) == FirstIndex(init, c)
      {
        FirstIndexExtend(init, last, c);
        assert s == init + [last];
      }
      if last !in init {
        forall i | 0 <= i < |d|
          ensures FirstIndex(s, d[i]) < FirstIndex(s, last)
        {
          assert d[i] in d;
        }
      }
    }
  }

  /** Appending an element does not move the first occurrence of one already present. */
  lemma FirstIndexExtend(s: seq<Rgba>, y: Rgba, x: Rgba)
    requires x in s
    ensures FirstIndex(s + [y], x) == FirstIndex(s, x)
  {
    assert (s + [y])[..|s|] == s;
  }

  /** Unique mode never lengthens the palette, and keeps at least one colour of a non-empty input. */
  lemma {:induction false} DedupLength(s: seq<Rgba>)
    ensures |Dedup(s)| <= |s|
    ensures |s| > 0 ==> |Dedup(s)| >= 1
    decreases |s|
  {
    if |s| > 0 {
      DedupLength(s[..|s| - 1]);
      DedupElements(s);
      assert s[0] in s;
    }
  }

  /**
   * The palette loop of `sketch`: scan the image row by row, appending
   * every pixel, or in unique mode only those whose colour has not been
   * seen yet (tracked in a set, as the source tracks it in a map).
   */
  method BuildPalette(img: Image, uniq: bool) returns (palette: seq<Rgba>)
    requires Valid(img)
    ensures palette == PaletteOf(img, uniq)
    ensures !uniq ==> |palette| == img.width * img.height
    ensures uniq ==> Distinct(palette) && forall c :: c in palette <==> c in RasterOrder(img)
  {
    palette := [];
    var seen: set<Rgba> := {};
    ghost var scanned: seq<Rgba> := [];
    var y := 0;
    while y < img.height
      invariant 0 <= y <= img.height
      invariant scanned == Flatten(img.rows[..y])
      invariant palette == if uniq then Dedup(scanned) else scanned
      invariant uniq ==> forall c :: c in seen <==> c in scanned
    {
      var x := 0;
      while x < img.width
        invariant 0 <= x <= img.width
        invariant scanned == Flatten(img.rows[..y]) + img.rows[y][..x]
        invariant palette == if uniq then Dedup(scanned) else scanned
        invariant uniq ==> forall c :: c in seen <==> c in scanned
      {
        var clr := At(img, Point(x, y));
        assert clr == img.rows[y][x];
        var before := scanned;
        scanned := scanned + [clr];
        assert scanned[..|scanned| - 1] == before;
        assert img.rows[y][..x + 1] == img.rows[y][..x] + [clr];
        if uniq {
          if clr !in seen {
            palette := palette + [clr];
            seen := seen + {clr};
          }
        } else {
          palette := palette + [clr];
        }
        x := x + 1;
      }
      assert img.rows[y][..x] == img.rows[y];
      assert img.rows[..y + 1][..y] == img.rows[..y];
      y := y + 1;
    }
    assert img.rows[..y] == img.rows;
    RasterLength(img);
    DedupDistinct(scanned);
    DedupElements(scanned);
  }
}
