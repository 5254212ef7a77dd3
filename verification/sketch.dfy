/**
 * The hill climber of `sketch`. Two canvases start as the same opaque
 * black image. Each iteration proposes a random line, draws it on the
 * scratch canvas `img1`, and compares both canvases with the target along
 * that line. A strict improvement is copied into the kept canvas `img2`;
 * otherwise `img1` is restored from `img2` along the line.
 *
 * The random numbers are parameters: one `Draws` value per iteration.
 */
module Sketch {
  import opened Geometry
  import opened Color
  import opened Canvas
  import opened Bresenham
  import opened Raster
  import opened Palette

  /** Go's integer `/`: the quotient rounded toward zero. */
  function TruncDiv(a: int, b: int): (q: int)
    requires b > 0
    ensures Abs(a) - b < Abs(q) * b <= Abs(a)
    ensures a >= 0 ==> q >= 0
    ensures a <= 0 ==> q <= 0
  {
    if a >= 0 then a / b else -((-a) / b)
  }

  /** The five `rand.Intn` results of one iteration, in the order they are drawn. */
  datatype Draws = Draws(x1: int, y1: int, rx: int, ry: int, k: int)

  /**
   * The ranges `rand.Intn` returns: `[0, w)`, `[0, h)`, `[0, lineLen)`
   * twice and `[0, len(palette))`. They are empty, and the source panics,
   * when a bound is not positive, so no draw is in range then.
   */
  predicate InRange(d: Draws, width: nat, height: nat, lineLen: int, colours: nat)
  {
    && 0 <= d.x1 < width && 0 <= d.y1 < height
    && 0 <= d.rx < lineLen && 0 <= d.ry < lineLen
    && 0 <= d.k < colours
  }

  /** One proposed stroke: a line from `p0` to `p1` in colour `clr`. */
  datatype Proposal = Proposal(p0: Point, p1: Point, clr: Rgba)

  /**
   * The stroke for one set of draws: it starts at the pixel (x1, y1), ends
   * at most lineLen / 2 away on each axis, and uses a palette colour.
   */
  function Propose(d: Draws, lineLen: int, palette: seq<Rgba>): (pr: Proposal)
    requires 0 <= d.rx < lineLen && 0 <= d.ry < lineLen && 0 <= d.k < |palette|
    ensures pr.p0 == Point(d.x1, d.y1)
    ensures Abs(pr.p1.x - pr.p0.x) <= lineLen / 2 && Abs(pr.p1.y - pr.p0.y) <= lineLen / 2
    ensures pr.clr in palette
  {
    var shift := TruncDiv(-lineLen, 2);
    Proposal(Point(d.x1, d.y1), Point(shift + d.x1 + d.rx, shift + d.y1 + d.ry), palette[d.k])
  }

  /** A stroke touches at most lineLen / 2 + 1 pixels. */
  lemma ProposalShort(d: Draws, lineLen: int, palette: seq<Rgba>)
    requires 0 <= d.rx < lineLen && 0 <= d.ry < lineLen && 0 <= d.k < |palette|
    ensures |Path(Propose(d, lineLen, palette).p0, Propose(d, lineLen, palette).p1)| <= lineLen / 2 + 1
  {
  }

  /** What one iteration leaves behind, and whether it kept the stroke. */
  datatype Outcome = Outcome(img1: Image, img2: Image, accepted: bool)

  /**
   * One iteration as a function of the canvases: draw on `img1`, score both
   * canvases along the stroke, then copy the better one over the other
   * along the stroke. A tie keeps `img2`.
   */
  function Attempt(target: Image, img1: Image, img2: Image, pr: Proposal): (o: Outcome)
    requires Valid(target) && Valid(img1) && Valid(img2)
    ensures Valid(o.img1) && Valid(o.img2) && SameSize(o.img1, img1) && SameSize(o.img2, img2)
  {
    var path := Path(pr.p0, pr.p1);
    var drawn := DrawAlong(img1, path, pr.clr);
    if DiffAlong(target, drawn, path) < DiffAlong(target, img2, path) then
      Outcome(drawn, CopyAlong(img2, drawn, path), true)
    else
      Outcome(CopyAlong(drawn, img2, path), img2, false)
  }

  /** Equal canvases before an iteration are equal after it, whichever way it went. */
  lemma AttemptKeepsEqual(target: Image, img: Image, pr: Proposal)
    requires Valid(target) && Valid(img)
    ensures Attempt(target, img, img, pr).img1 == Attempt(target, img, img, pr).img2
  {
    var path := Path(pr.p0, pr.p1);
    var drawn := DrawAlong(img, path, pr.clr);
    var o := Attempt(target, img, img, pr);
    DrawAlongConfined(img, path, pr.clr);
    if o.accepted {
      CopyAlongConfined(img, drawn, path);
    } else {
      CopyAlongConfined(drawn, img, path);
    }
    Extensionality(o.img1, o.img2);
  }

  /**
   * The acceptance rule: the stroke is kept exactly when it strictly
   * lowers `img2`'s score along the stroke; otherwise `img2` is untouched.
   */
  lemma AttemptAcceptsImprovement(target: Image, img1: Image, img2: Image, pr: Proposal)
    requires Valid(target) && Valid(img1) && Valid(img2) && SameSize(img1, img2)
    ensures var o := Attempt(target, img1, img2, pr);
            var path := Path(pr.p0, pr.p1);
            o.accepted <==> DiffAlong(target, o.img2, path) < DiffAlong(target, img2, path)
    ensures !Attempt(target, img1, img2, pr).accepted ==> Attempt(target, img1, img2, pr).img2 == img2
  {
    AttemptKeptTakesStroke(target, img1, img2, pr);
  }

  /**
   * A kept stroke gives `img2` the drawn pixels of `img1` along the
   * stroke, and with them `img1`'s score there.
   */
  lemma AttemptKeptTakesStroke(target: Image, img1: Image, img2: Image, pr: Proposal)
    requires Valid(target) && Valid(img1) && Valid(img2) && SameSize(img1, img2)
    ensures var o := Attempt(target, img1, img2, pr);
            var path := Path(pr.p0, pr.p1);
            var drawn := DrawAlong(img1, path, pr.clr);
            o.accepted ==> (forall q :: q in path ==> At(o.img2, q) == At(drawn, q))
                           && DiffAlong(target, o.img2, path) == DiffAlong(target, drawn, path)
  {
    var path := Path(pr.p0, pr.p1);
    var drawn := DrawAlong(img1, path, pr.clr);
    var o := Attempt(target, img1, img2, pr);
    if o.accepted {
      CopyAlongAgrees(img2, drawn, path);
      DiffAlongLocal(target, o.img2, target, drawn, path);
    }
  }

  /**
   * The kept canvas never moves away from the target, and every kept
   * stroke brings it strictly closer.
   */
  lemma AttemptNeverWorse(target: Image, img1: Image, img2: Image, pr: Proposal)
    requires Valid(target) && Valid(img1) && Valid(img2) && SameSize(target, img1) && SameSize(img1, img2)
    ensures TotalDistance(target, Attempt(target, img1, img2, pr).img2) <= TotalDistance(target, img2)
    ensures Attempt(target, img1, img2, pr).accepted
            ==> TotalDistance(target, Attempt(target, img1, img2, pr).img2) < TotalDistance(target, img2)
  {
    var path := Path(pr.p0, pr.p1);
    var drawn := DrawAlong(img1, path, pr.clr);
    if Attempt(target, img1, img2, pr).accepted {
      PathDistinct(pr.p0, pr.p1);
      CopyAlongTotal(target, img2, drawn, path);
    }
  }

  /** Every pixel of the canvas is the background or a palette colour. */
  ghost predicate Painted(img: Image, palette: seq<Rgba>)
    requires Valid(img)
  {
    forall p :: InBounds(img, p) ==> At(img, p) == OpaqueBlack || At(img, p) in palette
  }

  /** A stroke in a palette colour keeps both canvases painted from the palette. */
  lemma AttemptPainted(target: Image, img1: Image, img2: Image, pr: Proposal, palette: seq<Rgba>)
    requires Valid(target) && Valid(img1) && Valid(img2) && SameSize(img1, img2)
    requires Painted(img1, palette) && Painted(img2, palette) && pr.clr in palette
    ensures Painted(Attempt(target, img1, img2, pr).img1, palette)
    ensures Painted(Attempt(target, img1, img2, pr).img2, palette)
  {
    var path := Path(pr.p0, pr.p1);
    var drawn := DrawAlong(img1, path, pr.clr);
    DrawAlongConfined(img1, path, pr.clr);
    if Attempt(target, img1, img2, pr).accepted {
      CopyAlongConfined(img2, drawn, path);
    } else {
      CopyAlongConfined(drawn, img2, path);
    }
  }

  /**
   * The body of `sketch`'s main loop for one stroke, with the source's
   * `line`, `bdiff` and `bcopy` loops; it computes Attempt.
   */
  method Iteration(target: Image, img1: Image, img2: Image, pr: Proposal) returns (o: Outcome)
    requires Valid(target) && Valid(img1) && Valid(img2)
    ensures o == Attempt(target, img1, img2, pr)
  {
    var scratch := Line(img1, pr.p0, pr.p1, pr.clr);
    var diff1 := BDiff(target, scratch, pr.p0, pr.p1);
    var diff2 := BDiff(target, img2, pr.p0, pr.p1);
    if diff1 < diff2 {
      var kept := BCopy(img2, scratch, pr.p0, pr.p1);
      o := Outcome(scratch, kept, true);
    } else {
      var restored := BCopy(scratch, img2, pr.p0, pr.p1);
      o := Outcome(restored, img2, false);
    }
  }

  /** The two canvases and the number of kept strokes so far. */
  datatype Progress = Progress(img1: Image, img2: Image, kept: nat)

  /**
   * The iterations for `draws`, one Attempt per draw in order, starting
   * from `start`; `kept` grows by one exactly on each accepted stroke.
   */
  function Replay(target: Image, palette: seq<Rgba>, lineLen: int, start: Progress, draws: seq<Draws>): (p: Progress)
    requires Valid(target) && Valid(start.img1) && Valid(start.img2)
    requires forall i :: 0 <= i < |draws| ==> InRange(draws[i], target.width, target.height, lineLen, |palette|)
    ensures Valid(p.img1) && Valid(p.img2) && SameSize(p.img1, start.img1) && SameSize(p.img2, start.img2)
    ensures start.kept <= p.kept <= start.kept + |draws|
    decreases |draws|
  {
    if |draws| == 0 then start
    else
      var last := draws[|draws| - 1];
      assert InRange(last, target.width, target.height, lineLen, |palette|);
      var before := Replay(target, palette, lineLen, start, draws[..|draws| - 1]);
      var o := Attempt(target, before.img1, before.img2, Propose(last, lineLen, palette));
      Progress(o.img1, o.img2, before.kept + if o.accepted then 1 else 0)
  }

  /**
   * The main loop of `sketch` over a finite run of draws, from two opaque
   * black canvases. `stati` counts iterations and `statc` kept strokes.
   * The result is the Replay of the draws; moreover the canvases end
   * equal, the kept canvas is painted from the palette, and its distance
   * to the target has dropped by at least `statc`.
   */
  method Climb(target: Image, palette: seq<Rgba>, lineLen: int, draws: seq<Draws>)
    returns (img1: Image, img2: Image, stati: nat, statc: nat)
    requires Valid(target)
    requires forall i :: 0 <= i < |draws| ==> InRange(draws[i], target.width, target.height, lineLen, |palette|)
    ensures Valid(img2) && SameSize(img2, target) && img1 == img2
    ensures stati == |draws| && statc <= stati
    ensures TotalDistance(target, img2) + statc
            <= TotalDistance(target, Uniform(target.width, target.height, OpaqueBlack))
    ensures Painted(img2, palette)
    ensures var background := Uniform(target.width, target.height, OpaqueBlack);
            Progress(img1, img2, statc) == Replay(target, palette, lineLen, Progress(background, background, 0), draws)
  {
    var background := Uniform(target.width, target.height, OpaqueBlack);
    img1, img2 := background, background;
    stati, statc := 0, 0;
    for i := 0 to |draws|
      invariant Valid(img2) && SameSize(img2, target) && img1 == img2
      invariant stati == i && statc <= stati
      invariant TotalDistance(target, img2) + statc <= TotalDistance(target, background)
      invariant Painted(img2, palette)
      invariant Progress(img1, img2, statc) == Replay(target, palette, lineLen, Progress(background, background, 0), draws[..i])
    {
      assert draws[..i + 1][..i] == draws[..i];
      stati := stati + 1;
      var pr := Propose(draws[i], lineLen, palette);
      AttemptKeepsEqual(target, img2, pr);
      AttemptNeverWorse(target, img1, img2, pr);
      AttemptPainted(target, img1, img2, pr, palette);
      var o := Iteration(target, img1, img2, pr);
      if o.accepted {
        statc := statc + 1;
      }
      img1, img2 := o.img1, o.img2;
    }
    assert draws[..|draws|] == draws;
  }

  /**
   * `sketch` without its I/O: build the palette from the target, then climb.
   * Each draw of a colour index is in range of the palette actually built.
   */
  method Run(target: Image, uniq: bool, lineLen: int, draws: seq<Draws>)
    returns (img2: Image, stati: nat, statc: nat)
    requires Valid(target)
    requires forall i :: 0 <= i < |draws|
               ==> InRange(draws[i], target.width, target.height, lineLen, |PaletteOf(target, uniq)|)
    ensures Valid(img2) && SameSize(img2, target) && stati == |draws| && statc <= stati
    ensures TotalDistance(target, img2) + statc
            <= TotalDistance(target, Uniform(target.width, target.height, OpaqueBlack))
    ensures Painted(img2, PaletteOf(target, uniq))
    ensures var background := Uniform(target.width, target.height, OpaqueBlack);
            var p := Replay(target, PaletteOf(target, uniq), lineLen, Progress(background, background, 0), draws);
            img2 == p.img2 && statc == p.kept
  {
    var palette := BuildPalette(target, uniq);
    var img1;
    img1, img2, stati, statc := Climb(target, palette, lineLen, draws);
  }
}
