# sketch — a verified model of the line-approximation engine

`sketch` approximates an image with random straight lines. It starts
from two opaque black canvases. Each iteration proposes a line from a
random pixel, with a random offset of less than `lineLen` on each axis
and a colour drawn from a palette built from the input image. The line
is drawn on the scratch canvas `img1`. Both canvases are then scored
against the input along the line. If the stroke strictly improves the
score, it is copied into the kept canvas `img2`. Otherwise `img1` is
restored from `img2` along the line.

This project models that engine in Dafny, minus its I/O:

- `geometry.dfy` (`Geometry`): points and the king's-move relation of a line step.
- `color.dfy` (`Color`): RGBA pixels and the squared distance `calcDiff` computes.
- `canvas.dfy` (`Canvas`): `image.RGBA` as rows of pixels.
  - `RGBAAt` returns the zero colour outside the bounds.
  - `SetRGBA` is a no-op outside the bounds.
  - `TotalDistance` is the whole-image score the climber descends.
- `bresenham.dfy` (`Bresenham`): the walk shared by `line`, `bcopy` and `bdiff`.
  - It is defined once, as the sequence `Path(p0, p1)` of visited points.
  - It is proved to terminate, to have the right endpoints and length, and to visit no point twice.
- `raster.dfy` (`Raster`): the source's three loops (`Line`, `BCopy`, `BDiff`).
  - Each is proved to compute a fold of one action over `Path(p0, p1)`.
  - So all three visit exactly the same pixels.
- `palette.dfy` (`Palette`): the palette in all mode and unique mode, as a scan loop and as reference functions.
- `sketch.dfy` (`Sketch`): the proposal and one iteration, plus a finite run of the main loop.
  - The iteration is a pure function (`Attempt`) and also the source's sequence of calls (`Iteration`).
  - The random numbers are parameters (`Draws`).

Pixel distances are exact natural numbers. The source computes them in
`float64`, where every pixel term is an integer of at most 4·255² and a
line's sum stays exact as long as it is below 2^53, that is, for any line
of fewer than about 3·10^10 pixels.

A line and its reverse do not in general cover the same pixels. Ties in
the error term are broken in the direction of travel, so the line from
(0,0) to (2,1) passes through (1,0), while the line back from (2,1) to
(0,0) passes through (1,1). `Bresenham.SwapChangesPixels` proves this.
The model follows the code: every caller in the source passes the
endpoints in the same order, so this does not affect the engine.

## Model

| member | source | states |
|---|---|---|
| Bresenham.Setup | main.go:54-67 | the loop's constants: the absolute spans dx, dy and the step directions sx, sy (+1 toward a larger coordinate, otherwise -1) |
| Bresenham.Origin | main.go:68 | the loop's starting variables: the point p0 and err = dx - dy |
| Bresenham.Step | main.go:76-84 | one pass of the loop body: x steps when e2 > -dy, y steps when e2 < dx, err adjusted by both tests on the same e2; its contract is StepSound |
| Bresenham.Walk | main.go:71-85 | the points the loop visits from any cursor satisfying the invariant: the current point first, p1 last, one point more than the major-axis steps left, so the loop ends |
| Bresenham.Path | main.go:54-85 | the walk starts at p0, ends at p1, has max(\|dx\|,\|dy\|)+1 points, so it terminates; equal endpoints give exactly one point |
| Bresenham.StartOnTrack | main.go:54-68 | the initial dx, dy, sx, sy, err satisfy the loop invariant, and the major-axis distance left is max(\|dx\|,\|dy\|) |
| Bresenham.StepSound | main.go:76-84 | one pass keeps the invariant, moves each coordinate by 0 or one step toward p1, and always advances the major axis by exactly one |
| Bresenham.WalkShape | main.go:71-85 | every move of the loop advances without passing the target, and the i-th visited point is i major-axis steps from the start |
| Bresenham.PathSteps | main.go:71-85 | consecutive visited points are king's moves that never get farther from p1 on either axis |
| Bresenham.PathDistinct | main.go:71-85 | no pixel is visited twice |
| Bresenham.ErrorBound | main.go:76 | while the loop runs, e2 = 2·err lies within ±3·max(dx, dy) |
| Bresenham.ErrorOvershoot | main.go:76-84 | err can exceed both spans: on (0,0)→(10,1) it reaches 13 > dx, so e2 = 26 > 2·dx |
| Bresenham.SwapChangesPixels | main.go:76-84 | swapping the endpoints can change the set of pixels visited: (1,0) is on the line (0,0)→(2,1) but not on (2,1)→(0,0) |
| Color.SquareIsProduct | main.go:94-97 | the recursive square used for each channel term equals n*n |
| Color.SquareBounds | main.go:94-97 | a channel term is at most 255², and zero exactly when the channel difference is zero |
| Color.Distance | main.go:88-98 | the squared RGBA distance is non-negative, at most 4·255², and zero only for equal pixels |
| Color.DistanceZero | main.go:88-98 | the distance is zero exactly when the two pixels are equal |
| Color.DistanceSymmetric | main.go:88-98 | the distance does not depend on the order of the two pixels |
| Canvas.At | main.go:89-90 | RGBAAt: the stored pixel inside the bounds, the zero colour outside |
| Canvas.Set | main.go:138 | SetRGBA changes exactly the addressed in-bounds pixel and keeps the image's size |
| Canvas.Uniform | main.go:265-269 | the background fill gives every in-bounds pixel the fill colour |
| Canvas.Extensionality | main.go:265-269 | two same-size canvases with the same pixels are the same canvas |
| Canvas.TotalDistanceSet | main.go:137-138 | writing one pixel changes the whole-image score by exactly that pixel's change in distance |
| Canvas.TotalDistanceSelf | main.go:88-98 | an image's whole-image score against itself is zero |
| Canvas.TotalDistanceSymmetric | main.go:88-98 | the whole-image score does not depend on the order of the two images |
| Raster.CalcDiff | main.go:88-98 | a pixel score of zero means the two images agree at that pixel |
| Raster.OutsideAddsNothing | main.go:89-90 | outside the bounds both images read as the zero colour, so the pixel score is zero |
| Raster.DrawAlong | main.go:172 | SetRGBA of the colour at each point of a path in order; keeps validity and size (what it changes is DrawAlongConfined) |
| Raster.CopyAlong | main.go:138 | SetRGBA of src's pixel at each point of a path in order; keeps validity and size (what it changes is CopyAlongConfined) |
| Raster.DiffAlong | main.go:70-72 | the sum of calcDiff over a path; its properties are DiffAlongLocal, DiffAlongZero and DiffAlongSymmetric |
| Raster.DrawAlongConfined | main.go:171-185 | drawing sets exactly the in-bounds points of the path to the colour and leaves every other pixel unchanged |
| Raster.CopyAlongConfined | main.go:137-151 | copying makes dst equal src at the in-bounds points of the path and leaves every other pixel of dst unchanged |
| Raster.CopyAlongAgrees | main.go:137-151 | after a copy between equal-size images, dst agrees with src at every point of the path |
| Raster.DiffAlongLocal | main.go:71-85 | the path score depends only on the two images' pixels on the path |
| Raster.DiffAlongZero | main.go:71-85 | the path score is zero exactly when the images agree at every point of the path |
| Raster.DiffAlongSymmetric | main.go:71-85 | the path score does not depend on the order of the two images |
| Raster.CopyAlongTotal | main.go:120-152 | copying along a path without repeats changes the whole-image score by the difference of the two path scores |
| Raster.CopyOneTotal | main.go:138 | copying one pixel changes the whole-image score by the difference of that pixel's two scores |
| Raster.Line | main.go:154-186 | the loop draws the colour on exactly the in-bounds pixels of Path(p0, p1), changes nothing else, and keeps the size |
| Raster.BCopy | main.go:120-152 | the loop copies src into dst on exactly the in-bounds pixels of Path(p0, p1) and changes nothing else |
| Raster.BDiff | main.go:53-86 | the loop returns the sum of the pixel score over Path(p0, p1) |
| Palette.PaletteOf | main.go:248-262 | the palette in either mode: RasterOrder in all mode, Dedup of it in unique mode; its contract is BuildPalette and the Raster/Dedup lemmas |
| Palette.Dedup | main.go:252-257 | unique mode's filter: a colour is appended only if it has not occurred earlier; its properties are DedupDistinct, DedupElements, DedupOrder and DedupLength |
| Palette.FirstIndex | main.go:254-257 | the result is a position holding the colour with no earlier occurrence of it |
| Palette.FlattenLength | main.go:250-262 | rows of width w laid end to end give height·w entries |
| Palette.FlattenIndex | main.go:250-262 | the pixel of row y, column x is entry y·w + x |
| Palette.RasterLength | main.go:250-262 | all mode: the palette has w·h entries |
| Palette.RasterAt | main.go:248-260 | all mode: entry y·w + x is the pixel at (x, y) |
| Palette.RasterEntry | main.go:248-260 | all mode: entry k is the pixel at (k mod w, k div w) |
| Palette.RasterFromImage | main.go:248-260 | all mode: every palette entry is the colour of some pixel |
| Palette.ImageInRaster | main.go:248-260 | all mode: every pixel's colour is in the palette |
| Palette.DedupDistinct | main.go:251-257 | unique mode: no colour appears twice |
| Palette.DedupElements | main.go:251-257 | unique mode: the palette has exactly the colours of the image |
| Palette.DedupOrder | main.go:251-257 | unique mode: colours appear in the order of their first occurrence in raster order |
| Palette.DedupLength | main.go:251-257 | unique mode: the palette is no longer than all mode's, and non-empty for a non-empty image |
| Palette.PaletteNonEmpty | main.go:248-282 | a non-empty image gives a non-empty palette in either mode, so the colour draw has a valid range |
| Palette.BuildPalette | main.go:248-262 | the scan loop with its seen-set yields the raster in all mode (w·h entries) and the first-occurrence deduplication in unique mode (distinct, same colours) |
| Sketch.TruncDiv | main.go:280-281 | Go's integer division: the quotient has the dividend's sign and the largest magnitude whose multiple does not exceed it |
| Sketch.Propose | main.go:278-282 | the stroke starts at the drawn pixel, its end lies at most lineLen/2 away on each axis, and its colour is a palette entry |
| Sketch.ProposalShort | main.go:280-281 | a stroke visits at most lineLen/2 + 1 pixels |
| Sketch.Attempt | main.go:284-311 | both canvases keep their validity and size through one iteration |
| Sketch.AttemptKeepsEqual | main.go:284-311 | if the two canvases are equal before an iteration, they are equal after it, whether the stroke is kept or rejected |
| Sketch.AttemptAcceptsImprovement | main.go:300-311 | the stroke is kept exactly when it strictly lowers img2's path score; a tie or a loss leaves img2 untouched |
| Sketch.AttemptKeptTakesStroke | main.go:304-306 | a kept stroke gives img2 img1's drawn pixels at every point of the line, and so img1's path score there (diffimg1) |
| Sketch.AttemptNeverWorse | main.go:300-311 | img2's whole-image distance to the input never increases, and strictly decreases on every kept stroke |
| Sketch.AttemptPainted | main.go:282-311 | if every pixel of both canvases is the background or a palette colour, that still holds after the iteration |
| Sketch.Iteration | main.go:284-311 | the source's line, bdiff, bdiff and bcopy calls compute exactly one Attempt |
| Sketch.Replay | main.go:276-311 | one Attempt per draw in order; the kept count grows by one exactly on each accepted stroke, so it lies between 0 and the number of draws, and both canvases keep their size |
| Sketch.Climb | main.go:265-311 | after n iterations from the black background: (img1, img2, statc) is exactly the Replay of the draws, the canvases are equal, stati = n, statc ≤ stati, img2's distance has dropped by at least statc, and every pixel is black or a palette colour |
| Sketch.Run | main.go:248-311 | palette then climb: img2 and statc are the Replay of the draws with the palette the input yields, with Climb's guarantees for that palette |

## Left out

- Cosine distance (main.go:99-117): the branch is dead (`if true`) and uses floating-point square roots.
- Saving frames, the incremental-save timer and the save goroutine: I/O and concurrency.
- The parallel `bdiff` (`par`): it computes the same two sums as the sequential branch, which is the one modelled.
- Flag parsing, `main`, frame and file handling, image decoding, and the conversion of non-RGBA input: I/O.
- Sketch.Climb: statistics reporting, and the reset of `stati`/`statc` at each report, depend on the clock. The counters here run over the whole run.
- Sketch.Climb: `maxIter < 0` (run forever) is not modelled. A run is a finite sequence of draws, one per iteration.
- `math/rand`: each iteration's five results are a `Draws` value in the documented ranges. A non-positive bound makes `rand.Intn` panic, so no draw is in range then.
- Raster.CalcDiff: the result is an exact natural number rather than a `float64`; its ensures states only the "zero implies equal" direction, and the converse is Color.DistanceZero.
- Color.Distance: the converse of its ensures ("equal pixels give zero") is stated separately as Color.DistanceZero.
- Go's fixed-width `int`: the arithmetic is unbounded here. Sketch.Propose bounds each offset of a stroke by lineLen/2, and Bresenham.ErrorBound bounds `e2 = 2*err` by 3·max(|dx|,|dy|); Bresenham.ErrorOvershoot shows err does exceed the spans. So no Go `int` overflows unless `-l` exceeds about 6·10^18 (2·2^63/3); such values are not modelled.
- Image bounds are taken to start at (0,0): a non-zero origin, which an offset first GIF frame gives and `image.NewRGBA(src.Bounds())` copies, is not modelled.
