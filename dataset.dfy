/** The dataset builder, `create_dataset` without its file I/O: for every
    sample a fresh white canvas, a drawn object count, that many placer calls
    against the one canvas, and the annotations of the placements that
    succeeded, recorded under the image's file name. */
module Dataset {
  import opened Raster
  import opened Random
  import opened Placers

  // ---------------------------------------------------------------------
  // Image names
  // ---------------------------------------------------------------------

  function DigitChar(d: nat): char
    requires d < 10
  {
    "0123456789"[d]
  }

  function DigitValue(c: char): nat {
    if '0' <= c <= '9' then (c - '0') as nat else 0
  }

  /** `'{}'.format(n)` for a natural number: its decimal digits, with no
      leading zero except in "0" itself. */
  function Decimal(n: nat): (s: string)
    ensures |s| >= 1
    ensures forall k :: 0 <= k < |s| ==> '0' <= s[k] <= '9'
    ensures s[0] == '0' <==> n == 0
    ensures n == 0 ==> s == "0"
  {
    if n < 10 then [DigitChar(n)] else Decimal(n / 10) + [DigitChar(n % 10)]
  }

  /** Reading decimal digits back as a number. */
  function DecimalValue(s: string): nat {
    if s == [] then 0 else DecimalValue(s[..|s| - 1]) * 10 + DigitValue(s[|s| - 1])
  }

  /** The decimal digits of n read back as n. */
  lemma {:induction false} DecimalRoundTrip(n: nat)
    ensures DecimalValue(Decimal(n)) == n
  {
    var s := Decimal(n);
    if n < 10 {
      assert s[..0] == [];
    } else {
      DecimalRoundTrip(n / 10);
      assert s[..|s| - 1] == Decimal(n / 10);
    }
  }

  /** `'{}.png'.format(i)`. */
  function ImageName(i: nat): string {
    Decimal(i) + ".png"
  }

  /** Distinct sample indices give distinct file names, so no image's
      entry overwrites another's. */
  lemma ImageNameInjective(i: nat, j: nat)
    ensures ImageName(i) == ImageName(j) ==> i == j
  {
    if ImageName(i) == ImageName(j) {
      var a, b := Decimal(i), Decimal(j);
      assert |a| == |b|;
      assert a == ImageName(i)[..|a|];
      assert b == ImageName(j)[..|b|];
      DecimalRoundTrip(i);
      DecimalRoundTrip(j);
    }
  }

  // ---------------------------------------------------------------------
  // One image, as a function of the draws
  // ---------------------------------------------------------------------

  /** The values of the entries that hold one, in order: the list of
      annotations an image keeps once the empty ones are skipped. */
  function Somes<T>(xs: seq<Option<T>>): (ys: seq<T>)
    ensures |ys| <= |xs|
    ensures forall y :: y in ys ==> Some(y) in xs
  {
    if xs == [] then []
    else
      var init := xs[..|xs| - 1];
      assert forall x :: x in init ==> x in xs;
      Somes(init) + (if xs[|xs| - 1].Some? then [xs[|xs| - 1].value] else [])
  }

  /** Appending an entry appends its value, if it has one. */
  lemma SomesSnoc<T>(xs: seq<Option<T>>, x: Option<T>)
    ensures Somes(xs + [x]) == Somes(xs) + (if x.Some? then [x.value] else [])
  {
    assert (xs + [x])[..|xs|] == xs;
  }

  /** The annotation `{'box': ..., 'category': ...}` a placer returns for an
      accepted footprint. */
  function AnnotationOf(s: Shape): Annotation {
    Annotation(Bounds(s), CategoryOf(s))
  }

  /** Some footprint of `shapes` covers pixel (x, y). */
  ghost predicate CoveredBy(shapes: seq<Shape>, x: int, y: int) {
    exists k :: 0 <= k < |shapes| && Covers(shapes[k], x, y)
  }

  /** The pixels of a height x width canvas the footprints cover: what is
      occupied on a fresh canvas once those footprints are painted. */
  ghost function OccupiedOf(shapes: seq<Shape>, height: nat, width: nat): set<(int, int)> {
    set y, x | 0 <= y < height && 0 <= x < width && CoveredBy(shapes, x, y) :: (x, y)
  }

  /** The footprints placed so far, with the accepted one if any. */
  function Extend(shapes: seq<Shape>, accepted: Option<Shape>): seq<Shape> {
    if accepted.Some? then shapes + [accepted.value] else shapes
  }

  /** How one pass of the inner loop ends: the footprint it placed, if any,
      and the position of the next draw. */
  datatype Step = Step(accepted: Option<Shape>, next: nat)

  /** One pass of the inner loop of `create_dataset` from draw position k on
      a canvas holding `shapes`: `np.random.choice(draw_fns)` takes draw k and
      picks `draw_circle` (0) or `draw_rectangle` (1), whose search starts at
      draw k + 1; an accepted footprint takes one more draw for its colour. */
  ghost function PlaceOne(source: nat -> nat, k: nat, height: nat, width: nat, shapes: seq<Shape>): Step
    requires CircleFits(height, width) && RectFits(height, width)
  {
    var occupied := OccupiedOf(shapes, height, width);
    if Pick(source(k), 0, 2) == 0 then
      var o := FirstFree(occupied, CircleTrials(source, k + 1, height, width), 0);
      Step(o.accepted, k + 1 + 3 * o.attempts + (if o.accepted.Some? then 1 else 0))
    else
      var o := FirstFree(occupied, RectTrials(source, k + 1, height, width), 0);
      Step(o.accepted, k + 1 + 4 * o.attempts + (if o.accepted.Some? then 1 else 0))
  }

  /** PlaceOne once the choice drawn at k is known, the placer's search from
      draw j = k + 1 has ended in `Outcome(accepted, attempts)`, and the next
      draw is at `next`. */
  lemma PlaceOneIs(source: nat -> nat, k: nat, j: nat, height: nat, width: nat, shapes: seq<Shape>,
                   accepted: Option<Shape>, attempts: nat, next: nat)
    requires CircleFits(height, width) && RectFits(height, width) && j == k + 1
    requires Pick(source(k), 0, 2) == 0 ==>
      FirstFree(OccupiedOf(shapes, height, width), CircleTrials(source, j, height, width), 0) == Outcome(accepted, attempts) &&
      next == j + 3 * attempts + (if accepted.Some? then 1 else 0)
    requires Pick(source(k), 0, 2) != 0 ==>
      FirstFree(OccupiedOf(shapes, height, width), RectTrials(source, j, height, width), 0) == Outcome(accepted, attempts) &&
      next == j + 4 * attempts + (if accepted.Some? then 1 else 0)
    ensures PlaceOne(source, k, height, width, shapes) == Step(accepted, next)
  {
  }

  /** The outcomes of n passes of the inner loop and the draw position after them. */
  datatype Slots = Slots(placed: seq<Option<Shape>>, next: nat)

  /** The inner loop `for i in range(n)` from draw position k on a canvas
      holding `shapes`: each pass sees the footprints of the passes before. */
  ghost function PlaceSlots(source: nat -> nat, k: nat, height: nat, width: nat, n: nat, shapes: seq<Shape>): (r: Slots)
    requires CircleFits(height, width) && RectFits(height, width)
    ensures |r.placed| == n
    decreases n
  {
    if n == 0 then Slots([], k)
    else
      var step := PlaceOne(source, k, height, width, shapes);
      var rest := PlaceSlots(source, step.next, height, width, n - 1, Extend(shapes, step.accepted));
      Slots([step.accepted] + rest.placed, rest.next)
  }

  /** One image of the dataset: its drawn object count, the outcome of each
      placer call, and the position of the next draw. */
  datatype Image = Image(numObjects: int, placed: seq<Option<Shape>>, next: nat)

  /** One pass of the outer loop from draw position k on a fresh white
      canvas: `np.random.randint(low=2, high=max_objects + 1)` takes draw k,
      and the inner loop runs that many times from draw k + 1. */
  ghost function RenderSpec(source: nat -> nat, k: nat, height: nat, width: nat, maxObjects: int): (r: Image)
    requires CircleFits(height, width) && RectFits(height, width) && maxObjects >= 2
    ensures 2 <= r.numObjects <= maxObjects && |r.placed| == r.numObjects
  {
    var n := Pick(source(k), 2, maxObjects + 1);
    var slots := PlaceSlots(source, k + 1, height, width, n, []);
    Image(n, slots.placed, slots.next)
  }

  /** The images of `count` passes of the outer loop from draw position k,
      each starting where the one before stopped drawing. */
  ghost function DatasetSpec(source: nat -> nat, k: nat, height: nat, width: nat, maxObjects: int, count: nat): seq<Image>
    requires CircleFits(height, width) && RectFits(height, width) && maxObjects >= 2
    decreases count
  {
    if count == 0 then []
    else
      var image := RenderSpec(source, k, height, width, maxObjects);
      [image] + DatasetSpec(source, image.next, height, width, maxObjects, count - 1)
  }

  /** Where the inner loop starts: the count drawn at k and the slots from k + 1. */
  lemma RenderSpecStart(source: nat -> nat, k: nat, height: nat, width: nat, maxObjects: int,
                        n: int, slots: Slots)
    requires CircleFits(height, width) && RectFits(height, width) && maxObjects >= 2
    requires n == Pick(source(k), 2, maxObjects + 1)
    requires slots == PlaceSlots(source, k + 1, height, width, n, [])
    ensures RenderSpec(source, k, height, width, maxObjects) == Image(n, slots.placed, slots.next)
  {
  }

  /** The first of n = m + 1 passes of the inner loop, once its outcome is known. */
  lemma PlaceSlotsStep(source: nat -> nat, k: nat, height: nat, width: nat, n: nat, m: nat, shapes: seq<Shape>,
                       accepted: Option<Shape>, next: nat)
    requires CircleFits(height, width) && RectFits(height, width) && n == m + 1
    requires PlaceOne(source, k, height, width, shapes) == Step(accepted, next)
    ensures var rest := PlaceSlots(source, next, height, width, m, Extend(shapes, accepted));
      PlaceSlots(source, k, height, width, n, shapes) == Slots([accepted] + rest.placed, rest.next)
  {
  }

  /** The first of count = m + 1 passes of the outer loop, once its image is known. */
  lemma DatasetSpecStep(source: nat -> nat, k: nat, height: nat, width: nat, maxObjects: int,
                        count: nat, m: nat, image: Image)
    requires CircleFits(height, width) && RectFits(height, width) && maxObjects >= 2 && count == m + 1
    requires image == RenderSpec(source, k, height, width, maxObjects)
    ensures DatasetSpec(source, k, height, width, maxObjects, count) ==
      [image] + DatasetSpec(source, image.next, height, width, maxObjects, m)
  {
    hide RenderSpec;
  }

  /** The outer loop yields one image per sample, each with an object count
      in [2, max_objects] and one placer outcome per object. */
  lemma {:induction false} DatasetSpecShape(source: nat -> nat, k: nat, height: nat, width: nat, maxObjects: int, count: nat)
    requires CircleFits(height, width) && RectFits(height, width) && maxObjects >= 2
    ensures var images := DatasetSpec(source, k, height, width, maxObjects, count);
      |images| == count &&
      forall i :: 0 <= i < count ==>
        2 <= images[i].numObjects <= maxObjects && |images[i].placed| == images[i].numObjects
    decreases count
  {
    hide RenderSpec;
    if count > 0 {
      var image := RenderSpec(source, k, height, width, maxObjects);
      DatasetSpecShape(source, image.next, height, width, maxObjects, count - 1);
    }
  }

  // ---------------------------------------------------------------------
  // One image on the canvas
  // ---------------------------------------------------------------------

  /** What the annotation list of one image and the footprints behind it
      satisfy: one footprint per recorded object, in placement order, each
      inside the canvas and annotated with its bounding box and its own
      category, no two sharing a pixel. */
  ghost predicate WellPlaced(objects: seq<Annotation>, shapes: seq<Shape>, height: nat, width: nat) {
    |objects| == |shapes| &&
    (forall k :: 0 <= k < |shapes| ==>
      InCanvas(shapes[k], height, width) && objects[k] == AnnotationOf(shapes[k])) &&
    (forall k, l :: 0 <= k < l < |shapes| ==> Disjoint(shapes[k], shapes[l]))
  }

  /** Recording one more in-canvas footprint, apart from all the earlier
      ones, keeps the list well placed. */
  lemma WellPlacedSnoc(objects: seq<Annotation>, shapes: seq<Shape>, height: nat, width: nat, s: Shape)
    requires WellPlaced(objects, shapes, height, width)
    requires InCanvas(s, height, width)
    requires forall k :: 0 <= k < |shapes| ==> Disjoint(shapes[k], s)
    ensures WellPlaced(objects + [AnnotationOf(s)], shapes + [s], height, width)
  {
    var objects', shapes' := objects + [AnnotationOf(s)], shapes + [s];
    assert forall k :: 0 <= k < |shapes| ==> shapes'[k] == shapes[k] && objects'[k] == objects[k];
  }

  /** The occupied pixels of the canvas are exactly those some footprint covers. */
  ghost predicate OccupiedByShapes(canvas: array2<Rgb>, shapes: seq<Shape>)
    reads canvas
  {
    forall y, x :: 0 <= y < canvas.Length0 && 0 <= x < canvas.Length1 ==>
      (Occupied(canvas[y, x]) <==> CoveredBy(shapes, x, y))
  }

  /** On such a canvas, the placers' view of the occupied pixels is the one
      the footprints determine. */
  lemma OccupiedPixelsOfShapes(canvas: array2<Rgb>, shapes: seq<Shape>)
    requires OccupiedByShapes(canvas, shapes)
    ensures OccupiedPixels(canvas) == OccupiedOf(shapes, canvas.Length0, canvas.Length1)
  {
    forall p | p in OccupiedOf(shapes, canvas.Length0, canvas.Length1)
      ensures p in OccupiedPixels(canvas)
    {
      var x, y := p.0, p.1;
      assert Occupied(canvas[y, x]);
    }
  }

  /** A footprint free on a canvas whose occupied pixels are those of
      in-canvas footprints shares no pixel with any of them. */
  lemma FreeIsDisjoint(shapes: seq<Shape>, height: nat, width: nat, s: Shape)
    requires forall k :: 0 <= k < |shapes| ==> InCanvas(shapes[k], height, width)
    requires FreeIn(OccupiedOf(shapes, height, width), s)
    ensures forall k :: 0 <= k < |shapes| ==> Disjoint(shapes[k], s)
  {
    forall k, x, y | 0 <= k < |shapes| && Covers(shapes[k], x, y)
      ensures !Covers(s, x, y)
    {
      InCanvasCovers(shapes[k], height, width, x, y);
      assert (x, y) in OccupiedOf(shapes, height, width);
    }
  }

  /** One pass of the inner loop: the placer picked by
      `np.random.choice(draw_fns)`, called on the shared canvas. The outcome
      and the draws it consumed are those of PlaceOne; an accepted footprint
      is annotated, and it lies inside the canvas apart from every earlier one. */
  method PlaceObject(canvas: array2<Rgb>, rng: Rng, ghost shapes: seq<Shape>)
    returns (ann: Option<Annotation>, ghost accepted: Option<Shape>)
    requires CircleFits(canvas.Length0, canvas.Length1) && RectFits(canvas.Length0, canvas.Length1)
    requires OccupiedByShapes(canvas, shapes)
    requires forall k :: 0 <= k < |shapes| ==> InCanvas(shapes[k], canvas.Length0, canvas.Length1)
    modifies canvas, rng
    ensures PlaceOne(rng.source, old(rng.drawn), canvas.Length0, canvas.Length1, shapes) == Step(accepted, rng.drawn)
    ensures ann == if accepted.Some? then Some(AnnotationOf(accepted.value)) else None
    ensures accepted.Some? ==>
      InCanvas(accepted.value, canvas.Length0, canvas.Length1) &&
      forall k :: 0 <= k < |shapes| ==> Disjoint(shapes[k], accepted.value)
    ensures OccupiedByShapes(canvas, Extend(shapes, accepted))
  {
    hide PlaceOne;
    hide FirstFree;
    hide CircleTrials;
    hide RectTrials;
    ghost var height, width := canvas.Length0, canvas.Length1;
    ghost var k := rng.drawn;
    ghost var occupied := OccupiedPixels(canvas);
    OccupiedPixelsOfShapes(canvas, shapes);
    var choice := rng.RandInt(0, 2);
    ghost var start := rng.drawn;
    ghost var s: Shape, fill: Rgb, attempts: nat;
    if choice == 0 {
      ann, s, fill, attempts := DrawCircle(canvas, rng);
      CircleAccepted(occupied, rng.source, start, height, width);
    } else {
      ann, s, fill, attempts := DrawRectangle(canvas, rng);
      RectAccepted(occupied, rng.source, start, height, width);
    }
    accepted := if ann.Some? then Some(s) else None;
    PlaceOneIs(rng.source, k, start, height, width, shapes, accepted, attempts, rng.drawn);
    if ann.Some? {
      FreeIsDisjoint(shapes, height, width, s);
      ghost var placed := shapes + [s];
      forall y, x | 0 <= y < height && 0 <= x < width
        ensures Occupied(canvas[y, x]) <==> CoveredBy(placed, x, y)
      {
        if Covers(s, x, y) {
          assert placed[|shapes|] == s;
        } else if Occupied(canvas[y, x]) {
          var j :| 0 <= j < |shapes| && Covers(shapes[j], x, y);
          assert placed[j] == shapes[j];
        } else {
          assert forall j :: 0 <= j < |shapes| ==> placed[j] == shapes[j];
        }
      }
    }
  }

  /** One pass of the outer loop of `create_dataset`, without `imsave`: the
      returned canvas is what is written to the image file. The object count,
      every placer outcome and the draws consumed are those of RenderSpec; the
      recorded objects are the annotations of the accepted footprints in call
      order, with the empty ones skipped. */
  method RenderImage(height: nat, width: nat, maxObjects: int, rng: Rng)
    returns (canvas: array2<Rgb>, numObjects: int, objects: seq<Annotation>,
             ghost placed: seq<Option<Shape>>, ghost shapes: seq<Shape>)
    requires CircleFits(height, width) && RectFits(height, width)
    requires maxObjects >= 2
    modifies rng
    ensures fresh(canvas) && canvas.Length0 == height && canvas.Length1 == width
    ensures RenderSpec(rng.source, old(rng.drawn), height, width, maxObjects) == Image(numObjects, placed, rng.drawn)
    ensures 2 <= numObjects <= maxObjects && |placed| == numObjects
    ensures shapes == Somes(placed)
    ensures WellPlaced(objects, shapes, height, width)
    ensures OccupiedByShapes(canvas, shapes)
  {
    hide PlaceOne;
    canvas := new Rgb[height, width]((y, x) => White);
    ghost var k := rng.drawn;
    ghost var spec := RenderSpec(rng.source, k, height, width, maxObjects);
    numObjects := rng.RandInt(2, maxObjects + 1);
    ghost var next: nat := rng.drawn;
    objects, placed, shapes := [], [], [];
    var slot := 0;
    ghost var remaining: nat := numObjects;
    ghost var tail := PlaceSlots(rng.source, k + 1, height, width, remaining, shapes);
    RenderSpecStart(rng.source, k, height, width, maxObjects, numObjects, tail);
    assert placed + tail.placed == tail.placed;
    while slot < numObjects
      invariant 0 <= slot <= numObjects && remaining == numObjects - slot && |placed| == slot
      invariant rng.drawn == next
      invariant shapes == Somes(placed)
      invariant WellPlaced(objects, shapes, height, width)
      invariant OccupiedByShapes(canvas, shapes)
      invariant tail == PlaceSlots(rng.source, next, height, width, remaining, shapes)
      invariant spec == Image(numObjects, placed + tail.placed, tail.next)
    {
      var ann;
      ghost var accepted;
      ann, accepted := PlaceObject(canvas, rng, shapes);
      ghost var n := remaining;
      remaining := remaining - 1;
      ghost var after: nat := rng.drawn;
      ghost var rest := PlaceSlots(rng.source, after, height, width, remaining, Extend(shapes, accepted));
      PlaceSlotsStep(rng.source, next, height, width, n, remaining, shapes, accepted, after);
      assert placed + tail.placed == (placed + [accepted]) + rest.placed;
      SomesSnoc(placed, accepted);
      if ann.Some? {
        WellPlacedSnoc(objects, shapes, height, width, accepted.value);
        objects := objects + [ann.value];
      }
      placed, shapes := placed + [accepted], Extend(shapes, accepted);
      slot, tail, next := slot + 1, rest, after;
    }
  }

  // ---------------------------------------------------------------------
  // The dataset
  // ---------------------------------------------------------------------

  /** One key of the manifest and its ordered annotation list. */
  datatype Entry = Entry(name: string, objects: seq<Annotation>)

  /** `create_dataset(num_samples, (height, width), max_objects)` without the
      directory set-up, the image writes and the JSON dump: the manifest as
      its entries in insertion order. Image i is the i-th image of
      DatasetSpec, drawn from where image i - 1 stopped; its entry is keyed
      by its file name and lists the annotations of its accepted footprints. */
  method CreateDataset(numSamples: nat, height: nat, width: nat, maxObjects: int, rng: Rng)
    returns (dataset: seq<Entry>, ghost images: seq<Image>)
    requires CircleFits(height, width) && RectFits(height, width)
    requires maxObjects >= 2
    modifies rng
    ensures images == DatasetSpec(rng.source, old(rng.drawn), height, width, maxObjects, numSamples)
    ensures |dataset| == numSamples && |images| == numSamples
    ensures forall i :: 0 <= i < numSamples ==> dataset[i].name == ImageName(i)
    ensures forall i, j :: 0 <= i < j < numSamples ==> dataset[i].name != dataset[j].name
    ensures forall i :: 0 <= i < numSamples ==>
      |dataset[i].objects| <= images[i].numObjects <= maxObjects &&
      WellPlaced(dataset[i].objects, Somes(images[i].placed), height, width)
  {
    hide RenderSpec;
    ghost var next := rng.drawn;
    ghost var spec := DatasetSpec(rng.source, next, height, width, maxObjects, numSamples);
    dataset, images := [], [];
    var i := 0;
    ghost var remaining: nat := numSamples;
    ghost var later := spec;
    assert images + later == later;
    while i < numSamples
      invariant 0 <= i <= numSamples && remaining == numSamples - i
      invariant |dataset| == i && |images| == i
      invariant rng.drawn == next
      invariant later == DatasetSpec(rng.source, next, height, width, maxObjects, remaining)
      invariant spec == images + later
      invariant forall k :: 0 <= k < i ==> dataset[k].name == ImageName(k)
      invariant forall k :: 0 <= k < i ==>
        |dataset[k].objects| <= images[k].numObjects <= maxObjects &&
        WellPlaced(dataset[k].objects, Somes(images[k].placed), height, width)
    {
      var canvas, numObjects, objects, placed, shapes := RenderImage(height, width, maxObjects, rng);
      ghost var image := Image(numObjects, placed, rng.drawn);
      ghost var n := remaining;
      remaining := remaining - 1;
      ghost var after := rng.drawn;
      ghost var rest := DatasetSpec(rng.source, after, height, width, maxObjects, remaining);
      DatasetSpecStep(rng.source, next, height, width, maxObjects, n, remaining, image);
      assert images + later == (images + [image]) + rest;
      ghost var dataset' := dataset + [Entry(ImageName(i), objects)];
      ghost var images' := images + [image];
      forall k | 0 <= k <= i
        ensures dataset'[k].name == ImageName(k)
        ensures |dataset'[k].objects| <= images'[k].numObjects <= maxObjects
        ensures WellPlaced(dataset'[k].objects, Somes(images'[k].placed), height, width)
      {
        if k < i {
          assert dataset'[k] == dataset[k] && images'[k] == images[k];
        } else {
          assert k == i;
        }
      }
      dataset := dataset + [Entry(ImageName(i), objects)];
      images := images + [image];
      i, later, next := i + 1, rest, after;
    }
    forall i, j | 0 <= i < j < numSamples
      ensures dataset[i].name != dataset[j].name
    {
      ImageNameInjective(i, j);
    }
  }
}
