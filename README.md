# Shapes dataset generator: a verified model of the placement core

`generate_shapes_dataset.py` builds an object-detection dataset. Each image is
a white canvas with a random number of non-overlapping filled circles and
rectangles. Each shape has an annotation: a corner-form bounding box and a
category. This project models the core of that script in Dafny:

- `convert_box`, the box conversion between center form and corner form;
- the two placers `draw_circle` and `draw_rectangle`, with their bounded
  retry;
- the occupancy mask and the paint on the shared canvas;
- the per-image annotation loop of `create_dataset`, and its outer loop.

The random draws are an explicit stream: the k-th call to numpy's generator
receives the raw value `source(k)`. Every step of the script is then a
function of the stream and of the canvas, and each method is proved equal
to that function:

- `CircleTrials` and `RectTrials` are the candidates a placer call would
  draw, trial by trial, from its first draw position;
- `FirstFree` is the retry recursion over those candidates: it accepts the
  first one whose footprint covers no occupied pixel, or gives up;
- `PlaceOne` is one pass of the inner loop: the placer chosen by its own
  draw, its search, and the colour draw of an accepted shape;
- `PlaceSlots`, `RenderSpec` and `DatasetSpec` chain those passes over the
  inner loop, one image, and the whole dataset.

On top of that the model proves what the script relies on:

- exact box round-trips;
- bounded retries, and a canvas left untouched when a placer gives up;
- an accepted footprint is the first free candidate, is painted in a
  non-white colour drawn for it, and lies inside the canvas;
- the footprints within one image are pairwise disjoint;
- each annotation box is the footprint's bounding box;
- the object counts, categories and image keys of the manifest.

Modules, leaves first:

- `Numeric` (numeric.dfy): Python's `int()` on a float (`Trunc`, truncation
  toward zero) and `int(np.sqrt(n))` (`ISqrt`).
- `Boxes` (boxes.dfy): `convert_box` and the `map(int, ...)` that turns a
  converted box into pixel coordinates.
- `Random` (random.dfy): numpy's global generator as a class `Rng`. It holds
  the stream of raw draws and a counter of draws taken. `randint(low, high)`
  maps the next raw draw into `[low, high)`.
- `Raster` (raster.dfy): the H×W canvas as an `array2<Rgb>`, with pixel
  (x, y) at `canvas[y, x]`. It also holds the two footprints (`Disc`,
  `Block`), the occupancy mask, the candidate's footprint mask, the
  `np.any(np.logical_and(...))` test and the filled paint. Each is a
  nested loop over the 2-D array.
- `Placers` (placers.dfy): the sampling ranges, the exact canvas sizes for
  which numpy's `randint` never sees an empty range, the candidates as
  functions of the draws, the retry search, and the two placers. Each
  placer is a loop with a trial counter.
- `Dataset` (dataset.dfy): the image names `"<i>.png"`, the inner and outer
  loops as functions of the draws, one image's placement loop
  (`RenderImage`) and the outer loop (`CreateDataset`). The manifest is a
  sequence of entries in insertion order.

The model follows the code on these points:

- `draw_rectangle` makes up to 101 attempts, not 100. Its counter starts
  at 0.
- The rectangle's size is drawn from `[0.15·S, 0.6·S)` and halved. That
  half is then passed to `convert_box` as the full width and height. So the
  rectangle measures about half the drawn size (`RectTrialFits`).
- Boxes are only guaranteed `x1 <= x2` and `y1 <= y2`, not strict
  inequality. The circle radius can be 0 when `int(sqrt(H·W)) < 20`. The
  rectangle size can be 0 when `min(H, W) <= 6`. A circle box is strict
  exactly when its radius is at least 1.
- Too small a canvas makes `randint` raise. The code does not report it as
  a configuration error. The model states the exact size conditions as
  preconditions (`CircleFits`, `RectFits`).
- The inner loop reuses the name `i` of the outer loop. The image name is
  computed before the inner loop runs, and the outer loop rebinds `i` from
  its range, so the keys are `"0.png"` to `"<n-1>.png"` all the same.

## Model

| member | source | states |
|---|---|---|
| `Numeric.Trunc` | generate_shapes_dataset.py:94-95 | `int()` truncates toward zero: the result has the value's sign and lies within less than one of it |
| `Numeric.TruncMonotone` | generate_shapes_dataset.py:124 | truncation never reverses the order of two values, so ordered float corners stay ordered after `int()` |
| `Numeric.ISqrt` | generate_shapes_dataset.py:73-74 | `int(np.sqrt(n))` is the largest k with k·k <= n |
| `Numeric.ISqrtOfSquare` | generate_shapes_dataset.py:73-74 | on a square canvas n×n the root is exactly n |
| `Boxes.ConvertBox` | generate_shapes_dataset.py:47-63 | fails exactly when the format is neither 'xywh' nor 'x1y1x2y2'; to 'xywh' the center ± half the size gives back the corners; to 'x1y1x2y2' the corners differ by w and h and their midpoint is (x, y) |
| `Boxes.CornerRoundTrip` | generate_shapes_dataset.py:50-63 | corner form → 'xywh' → 'x1y1x2y2' returns the original four values exactly |
| `Boxes.CenterRoundTrip` | generate_shapes_dataset.py:50-63 | center form → 'x1y1x2y2' → 'xywh' returns the original four values exactly |
| `Boxes.ToPixels` | generate_shapes_dataset.py:124 | `map(int, box)` keeps ordered corners ordered |
| `Boxes.CenterToPixels` | generate_shapes_dataset.py:94-95 | the integer box of a center and a non-negative size has x1 <= x2 and y1 <= y2 |
| `Boxes.CenterToPixelsConverts` | generate_shapes_dataset.py:94-95 | the integer box of a center and a size is `map(int, ...)` of what `convert_box` returns for 'x1y1x2y2' |
| `Boxes.CircleBoxExact` | generate_shapes_dataset.py:94-95 | the circle's box from `(x, y, 2r, 2r)` is exactly (x−r, y−r, x+r, y+r) |
| `Boxes.RectBoxWidth` | generate_shapes_dataset.py:119-124 | after truncation the rectangle's integer width and height are within one pixel of w and h |
| `Random.Pick` | generate_shapes_dataset.py:76 | a randint draw lies in [low, high), and a raw value below the width of the range is drawn as low plus that value |
| `Random.PickIsRemainder` | generate_shapes_dataset.py:76 | a randint draw is low plus the raw value modulo the width of the range |
| `Random.Rng.RandInt` | generate_shapes_dataset.py:76-79 | each call hands out the next raw draw, mapped into [low, high), and advances the draw counter by one |
| `Raster.CoversWithinBounds` | generate_shapes_dataset.py:82-86 | every pixel of a footprint lies in its bounding box |
| `Raster.InCanvasCovers` | generate_shapes_dataset.py:97-101 | a footprint whose box is inside the canvas has all its pixels inside the canvas |
| `Raster.OccupancyMask` | generate_shapes_dataset.py:71 | the mask is true exactly at the pixels that are not white |
| `Raster.FootprintMask` | generate_shapes_dataset.py:81-86 | the zero mask drawn with the candidate is true exactly at the footprint's pixels |
| `Raster.AnyOverlap` | generate_shapes_dataset.py:88 | true exactly when some pixel is set in both masks |
| `Raster.Collides` | generate_shapes_dataset.py:71-88 | the overlap test rejects a candidate exactly when its footprint covers an occupied pixel of the canvas |
| `Raster.Paint` | generate_shapes_dataset.py:97-101 | the footprint's pixels take the colour; every other pixel keeps its old value |
| `Placers.RadiusBoundsTruncate` | generate_shapes_dataset.py:73-76 | the integer radius bounds are `int()` of `0.05·int(sqrt(H·W))` and `0.20·int(sqrt(H·W))` |
| `Placers.CircleFitsExact` | generate_shapes_dataset.py:73-79 | CircleFits holds exactly when the radius range and the centre ranges for every drawable radius are non-empty, i.e. when no draw of `draw_circle` makes randint raise |
| `Placers.DimBoundsTruncate` | generate_shapes_dataset.py:114-120 | the integer size bounds are `int()` of `0.15·min(H, W)` and `0.6·min(H, W)` |
| `Placers.SpansTruncate` | generate_shapes_dataset.py:119-123 | the integer low centre bound is `int(w + 1)`, the high one is `int(side − w − 1)` whenever that is non-negative, and the centre range is non-empty in the model exactly when it is in the code |
| `Placers.SpanShrinks` | generate_shapes_dataset.py:122-123 | a larger drawn size never widens the centre range |
| `Placers.RectFitsExact` | generate_shapes_dataset.py:113-123 | RectFits holds exactly when the size range and the centre ranges for every drawable size are non-empty |
| `Placers.SquareCanvasFits` | generate_shapes_dataset.py:186-189 | a square canvas of side at least 5 meets both placers' range conditions |
| `Placers.RectCornersInCanvas` | generate_shapes_dataset.py:119-124 | a rectangle centred in the drawn ranges has ordered corners in [0, W−2]×[0, H−2] |
| `Placers.CircleCandidateFits` | generate_shapes_dataset.py:76-79 | the disc drawn from three raw draws has a radius in the drawn range and lies in [1, W−2]×[1, H−2] |
| `Placers.CentreRangesFor` | generate_shapes_dataset.py:76-79 | for every drawable radius the centre ranges are non-empty |
| `Placers.CircleCandidateDraws` | generate_shapes_dataset.py:76-79 | the disc built from the radius, x and y draws at k, k+1 and k+2 is the circle candidate at k |
| `Placers.CircleTrialsAt` | generate_shapes_dataset.py:76-89 | trial t of a circle search from draw `start` is the candidate at draw `start + 3t` |
| `Placers.CircleTrialsFit` | generate_shapes_dataset.py:66-89 | a circle search has exactly 100 trials, each a disc of the circle category inside the canvas |
| `Placers.RectBoxConverts` | generate_shapes_dataset.py:119-124 | the integer corners are `map(int, convert_box([x, y, w, h], 'x1y1x2y2'))` with w and h the halved drawn sizes |
| `Placers.SpansNonEmpty` | generate_shapes_dataset.py:119-123 | for every drawable size the centre ranges are non-empty |
| `Placers.RectCandidateFits` | generate_shapes_dataset.py:116-124 | the box drawn from four raw draws has ordered corners in [0, W−2]×[0, H−2] |
| `Placers.RectCandidateSize` | generate_shapes_dataset.py:119-124 | each side of that box is within one pixel of half its own drawn size |
| `Placers.RectCandidateDraws` | generate_shapes_dataset.py:119-124 | the corners computed from the h, w, x and y draws at k .. k+3 make the rectangle trial at k |
| `Placers.RectTrialFits` | generate_shapes_dataset.py:116-124 | the rectangle trial is a block of the rectangle category inside the canvas, about half the drawn size in each direction |
| `Placers.RectTrialsAt` | generate_shapes_dataset.py:116-134 | trial t of a rectangle search from draw `start` is the block at draw `start + 4t` |
| `Placers.RectTrialsFit` | generate_shapes_dataset.py:107-134 | a rectangle search has exactly 101 trials, each such a block |
| `Placers.FirstFreeTrials` | generate_shapes_dataset.py:66-89 | the retry recursion accepts the first trial whose footprint is free, after rejecting every trial before it, and gives up exactly when every trial overlaps |
| `Placers.CircleAccepted` | generate_shapes_dataset.py:66-89 | an accepted disc is free, inside the canvas, of the circle category and of a radius in range; an exhausted search saw all 100 discs overlap |
| `Placers.RectAccepted` | generate_shapes_dataset.py:107-134 | an accepted block is free, inside the canvas, of the rectangle category and near half the drawn size; an exhausted search saw all 101 blocks overlap |
| `Placers.PaletteColor` | generate_shapes_dataset.py:91-92 | the fill colour is one of red, green and blue, none of them white |
| `Placers.Fill` | generate_shapes_dataset.py:91-101 | one draw picks the palette colour; the footprint's pixels take it and become occupied, every other pixel keeps its value |
| `Placers.SampleCircle` | generate_shapes_dataset.py:76-79 | one candidate takes three draws (radius, x, y) and is the circle candidate at that draw position |
| `Placers.FindCircle` | generate_shapes_dataset.py:66-89 | the loop takes three draws per trial and ends as the retry recursion over the call's trials on the unchanged canvas |
| `Placers.DrawCircle` | generate_shapes_dataset.py:66-104 | the outcome is that of the retry recursion on the canvas before the call; when exhausted, `{}` with the canvas unchanged; otherwise one more draw picks the colour, only the disc's pixels are repainted in it, the occupied set grows by exactly the disc, and the annotation is its bounding box with category circle |
| `Placers.SampleRectangle` | generate_shapes_dataset.py:116-124 | one candidate takes four draws (height, width, x, y) and its block is the rectangle trial at that draw position |
| `Placers.FindRectangle` | generate_shapes_dataset.py:107-134 | the loop takes four draws per trial and ends as the retry recursion over the call's trials on the unchanged canvas |
| `Placers.DrawRectangle` | generate_shapes_dataset.py:107-146 | the outcome is that of the retry recursion on the canvas before the call; when exhausted, `{}` with the canvas unchanged; otherwise one more draw picks the colour, only the block's pixels are repainted in it, the occupied set grows by exactly the block, and the annotation is the tested corners with category rectangle |
| `Dataset.Decimal` | generate_shapes_dataset.py:164 | the formatted index is a non-empty string of decimal digits with no leading zero, and "0" for 0 |
| `Dataset.DecimalRoundTrip` | generate_shapes_dataset.py:164 | the index's decimal digits read back as the index |
| `Dataset.ImageNameInjective` | generate_shapes_dataset.py:164 | distinct indices give distinct `"<i>.png"` names |
| `Dataset.Somes` | generate_shapes_dataset.py:173-175 | skipping the empty annotations keeps at most as many entries, each one an annotation that was returned |
| `Dataset.SomesSnoc` | generate_shapes_dataset.py:173-175 | one more placer call appends its annotation if it has one, and nothing otherwise |
| `Dataset.PlaceOneIs` | generate_shapes_dataset.py:171-172 | a pass of the inner loop is PlaceOne once the choice draw and the chosen placer's search outcome and draw count are known |
| `Dataset.PlaceSlots` | generate_shapes_dataset.py:170-175 | the inner loop makes exactly one placer call per slot |
| `Dataset.RenderSpec` | generate_shapes_dataset.py:168-175 | the object count is in [2, max_objects], with one placer outcome per object |
| `Dataset.RenderSpecStart` | generate_shapes_dataset.py:168-170 | an image is its object count drawn at k followed by that many passes of the inner loop from k + 1 on an empty canvas |
| `Dataset.PlaceSlotsStep` | generate_shapes_dataset.py:170-175 | n = m + 1 passes are the first pass followed by m passes on the canvas with its footprint added |
| `Dataset.DatasetSpecStep` | generate_shapes_dataset.py:163-178 | count = m + 1 images are the first image followed by m images from the draw where it stopped |
| `Dataset.DatasetSpecShape` | generate_shapes_dataset.py:163-175 | the outer loop yields one image per sample, each with a count in [2, max_objects] and one outcome per object |
| `Dataset.WellPlacedSnoc` | generate_shapes_dataset.py:172-175 | appending an in-canvas annotation whose footprint is apart from the earlier ones keeps the list well placed |
| `Dataset.OccupiedPixelsOfShapes` | generate_shapes_dataset.py:71 | on a canvas painted with the footprints, the placers' occupancy mask is their union |
| `Dataset.FreeIsDisjoint` | generate_shapes_dataset.py:88 | a footprint free on that canvas shares no pixel with any earlier footprint |
| `Dataset.PlaceObject` | generate_shapes_dataset.py:171-175 | one pass draws the placer choice and ends as PlaceOne; an accepted footprint is annotated, lies inside the canvas, is apart from every earlier one, and the canvas stays painted exactly with the footprints |
| `Dataset.RenderImage` | generate_shapes_dataset.py:165-175 | the object count, every placer outcome and the draws consumed are those of RenderSpec; the recorded objects are the accepted footprints' annotations in call order, inside the canvas and pairwise disjoint; the canvas's occupied pixels are exactly their union |
| `Dataset.CreateDataset` | generate_shapes_dataset.py:160-182 | image i is the i-th image of DatasetSpec; entry i has key `ImageName(i)`, all keys are distinct, and its objects are the well placed annotations of that image's accepted footprints, at most max_objects of them |

## Left out

- `imshow` and `draw_boxes_cv2` are not modelled. They are matplotlib and cv2
  debug plotting and text rendering.
- Directory creation, `imsave`, `json.dump` and `tqdm` are not modelled.
  They are file I/O and progress display. `RenderImage` returns the canvas
  that `imsave` would write. `CreateDataset` returns the manifest as a
  sequence of entries in insertion order. Converting a category to its JSON
  string is `Placers.CategoryName`.
- The `__main__` block is not modelled. It parses argv and passes strings
  where integers are expected. Its square canvas is the case
  `Placers.SquareCanvasFits` covers.
- cv2's circle rasterisation is a foreign library. The circle footprint is
  the Euclidean disc (x−cx)² + (y−cy)² <= r². What the proofs use is that
  one footprint serves the overlap test and the paint.
- cv2 clips shapes that cross the canvas edge; the model has no clipping.
  Every accepted footprint is proved to lie inside the canvas.
- numpy's random distribution is not modelled. Draws come from an explicit
  stream. The model keeps how many draws each call takes and in what order.
  `np.random.choice(draw_fns)` is one draw mapped into {0, 1}, as `randint(0, 2)`
  would be; numpy's own stream use inside `choice` is not modelled.
- Floating point is modelled as exact reals. `int(np.sqrt(n))` is the exact
  integer square root. Products such as `0.05 * k` are exact, so float
  rounding right at an integer boundary is not captured.
- numpy's `randint` raising on an empty range is not modelled as an error.
  It becomes the preconditions `CircleFits` and `RectFits`, which the
  lemmas prove exact. `max_objects < 2` is the precondition
  `maxObjects >= 2`.
- `create_dataset` is modelled with the default `draw_fns`, the circle and
  rectangle placers; other placer lists are not modelled. The placers'
  `trials` argument is fixed at its default value, which is what every
  caller passes.
- The placers' recursion on a rejected candidate is a loop with the same
  counter, bounds and draw order. `FirstFree` states the recursion itself.
