/** The two shape placers, `draw_circle` and `draw_rectangle`. Each samples a
    candidate, rejects it when its footprint meets an occupied pixel and
    tries again, gives up after a fixed number of trials leaving the canvas
    as it was, and otherwise paints the footprint in a palette colour and
    returns the annotation. */
module Placers {
  import opened Numeric
  import opened Boxes
  import opened Raster
  import opened Random

  datatype Option<T> = None | Some(value: T)

  datatype Category = CircleShape | RectangleShape

  /** The category string written to the manifest. */
  function CategoryName(c: Category): string {
    match c
    case CircleShape => "circle"
    case RectangleShape => "rectangle"
  }

  /** `{'box': [x1, y1, x2, y2], 'category': ...}`; the empty `{}` of an
      exhausted placer is `None`. */
  datatype Annotation = Annotation(box: PixelBox, category: Category)

  /** The category a footprint's annotation carries. */
  function CategoryOf(s: Shape): Category {
    if s.Disc? then CircleShape else RectangleShape
  }

  /** A placer stops once its trial counter exceeds this. */
  const TrialLimit: nat := 100

  // ---------------------------------------------------------------------
  // Circle sampling ranges
  // ---------------------------------------------------------------------

  /** `int(min_radius)` with min_radius = 0.05 * int(sqrt(H * W)), as
      randint truncates its float bound; computed on integers. */
  function MinRadius(height: nat, width: nat): nat {
    5 * ISqrt(height * width) / 100
  }

  /** `int(max_radius)` with max_radius = 0.20 * int(sqrt(H * W)). */
  function MaxRadius(height: nat, width: nat): nat {
    20 * ISqrt(height * width) / 100
  }

  /** The integer radius bounds are `int()` of the float products. */
  lemma RadiusBoundsTruncate(height: nat, width: nat)
    ensures MinRadius(height, width) == Trunc(0.05 * ISqrt(height * width) as real)
    ensures MaxRadius(height, width) == Trunc(0.20 * ISqrt(height * width) as real)
  {
    var root := ISqrt(height * width);
    FloorOfQuotient(5 * root, 100);
    FloorOfQuotient(20 * root, 100);
    assert 0.05 * root as real == (5 * root) as real / 100.0;
    assert 0.20 * root as real == (20 * root) as real / 100.0;
  }

  /** The centre ranges [r + 1, side - r - 1) are non-empty for radius r. */
  predicate CentreRangesNonEmpty(r: int, height: nat, width: nat) {
    r + 1 < width - r - 1 && r + 1 < height - r - 1
  }

  /** Every randint of `draw_circle` has a non-empty range: the radius range,
      and the centre ranges for the largest radius that can be drawn. */
  predicate CircleFits(height: nat, width: nat) {
    MinRadius(height, width) < MaxRadius(height, width) &&
    2 * MaxRadius(height, width) < width && 2 * MaxRadius(height, width) < height
  }

  /** CircleFits holds exactly when no draw of `draw_circle` makes numpy
      raise for an empty range. */
  lemma CircleFitsExact(height: nat, width: nat)
    ensures CircleFits(height, width) <==>
      MinRadius(height, width) < MaxRadius(height, width) &&
      forall r :: MinRadius(height, width) <= r < MaxRadius(height, width) ==>
        CentreRangesNonEmpty(r, height, width)
  {
    var lo, hi := MinRadius(height, width), MaxRadius(height, width);
    if lo < hi && !CircleFits(height, width) {
      assert !CentreRangesNonEmpty(hi - 1, height, width);
    }
  }

  /** The centre ranges of every drawable radius are non-empty. */
  lemma CentreRangesFor(r: int, height: nat, width: nat)
    requires CircleFits(height, width) && MinRadius(height, width) <= r < MaxRadius(height, width)
    ensures CentreRangesNonEmpty(r, height, width)
  {
  }

  // ---------------------------------------------------------------------
  // Rectangle sampling ranges
  // ---------------------------------------------------------------------

  /** `int(min_dim)` with min_dim = 0.15 * min(H, W); computed on integers. */
  function MinDim(height: nat, width: nat): nat {
    15 * (if height < width then height else width) / 100
  }

  /** `int(max_dim)` with max_dim = 0.6 * min(H, W). */
  function MaxDim(height: nat, width: nat): nat {
    60 * (if height < width then height else width) / 100
  }

  /** The integer size bounds are `int()` of the float products. */
  lemma DimBoundsTruncate(height: nat, width: nat)
    ensures MinDim(height, width) == Trunc(0.15 * (if height < width then height else width) as real)
    ensures MaxDim(height, width) == Trunc(0.6 * (if height < width then height else width) as real)
  {
    var m := if height < width then height else width;
    FloorOfQuotient(15 * m, 100);
    FloorOfQuotient(60 * m, 100);
    assert 0.15 * m as real == (15 * m) as real / 100.0;
    assert 0.6 * m as real == (60 * m) as real / 100.0;
  }

  /** `int(w + 1)`, the low end of the centre range for a drawn size d,
      where w = d / 2: on integers, (d + 2) / 2. */
  function SpanLow(d: int): int {
    (d + 2) / 2
  }

  /** Twice the lowest centre exceeds the drawn size. */
  lemma SpanLowAbove(d: int)
    ensures d < 2 * SpanLow(d)
  {
  }

  /** `int(side - w - 1)`, the high end of the centre range: on integers,
      (2 * side - d - 2) / 2. */
  function SpanHigh(d: int, side: nat): int {
    (2 * side - d - 2) / 2
  }

  /** The integer centre bounds are `int()` of the float expressions. Where
      the high end's numerator is negative, `/` rounds down and `int()`
      toward zero, but both stay below the low end, so the range is empty
      in either reading. */
  lemma SpansTruncate(d: nat, side: nat)
    ensures SpanLow(d) == Trunc(d as real / 2.0 + 1.0)
    ensures 2 * side >= d + 2 ==> SpanHigh(d, side) == Trunc(side as real - d as real / 2.0 - 1.0)
    ensures SpanLow(d) < SpanHigh(d, side) <==> SpanLow(d) < Trunc(side as real - d as real / 2.0 - 1.0)
  {
    FloorOfQuotient(d + 2, 2);
    assert d as real / 2.0 + 1.0 == (d + 2) as real / 2.0;
    if 2 * side >= d + 2 {
      FloorOfQuotient(2 * side - d - 2, 2);
      assert side as real - d as real / 2.0 - 1.0 == (2 * side - d - 2) as real / 2.0;
    }
  }

  /** Every randint of `draw_rectangle` has a non-empty range: the size
      range, and the centre ranges for the largest size that can be drawn. */
  predicate RectFits(height: nat, width: nat) {
    var lo, hi := MinDim(height, width), MaxDim(height, width);
    lo < hi &&
    SpanLow(hi - 1) < SpanHigh(hi - 1, width) && SpanLow(hi - 1) < SpanHigh(hi - 1, height)
  }

  /** The centre range shrinks as the drawn size grows. */
  lemma SpanShrinks(d: int, e: int, side: nat)
    requires d <= e
    ensures SpanLow(d) <= SpanLow(e) && SpanHigh(e, side) <= SpanHigh(d, side)
  {
  }

  /** RectFits holds exactly when no draw of `draw_rectangle` makes numpy
      raise for an empty range. */
  lemma RectFitsExact(height: nat, width: nat)
    ensures RectFits(height, width) <==>
      MinDim(height, width) < MaxDim(height, width) &&
      forall d :: MinDim(height, width) <= d < MaxDim(height, width) ==>
        SpanLow(d) < SpanHigh(d, width) && SpanLow(d) < SpanHigh(d, height)
  {
    var lo, hi := MinDim(height, width), MaxDim(height, width);
    if RectFits(height, width) {
      forall d | lo <= d < hi
        ensures SpanLow(d) < SpanHigh(d, width) && SpanLow(d) < SpanHigh(d, height)
      {
        SpanShrinks(d, hi - 1, width);
        SpanShrinks(d, hi - 1, height);
      }
    } else if lo < hi {
      assert lo <= hi - 1 < hi;
    }
  }

  /** The centre ranges of a drawable size d are non-empty. */
  lemma SpansNonEmpty(d: int, height: nat, width: nat)
    requires RectFits(height, width) && MinDim(height, width) <= d < MaxDim(height, width)
    ensures SpanLow(d) < SpanHigh(d, width) && SpanLow(d) < SpanHigh(d, height)
  {
    SpanShrinks(d, MaxDim(height, width) - 1, width);
    SpanShrinks(d, MaxDim(height, width) - 1, height);
  }

  /** A square canvas of side at least 5 -- the shape the generator is run
      with -- satisfies both placers' range conditions. */
  lemma SquareCanvasFits(n: nat)
    requires n >= 5
    ensures CircleFits(n, n) && RectFits(n, n)
  {
    SquareCircleFits(n);
    SquareRectFits(n);
  }

  lemma SquareCircleFits(n: nat)
    requires n >= 5
    ensures CircleFits(n, n)
  {
    ISqrtOfSquare(n);
    assert MinRadius(n, n) == 5 * n / 100 && MaxRadius(n, n) == 20 * n / 100;
  }

  lemma SquareRectFits(n: nat)
    requires n >= 5
    ensures RectFits(n, n)
  {
    var hi := MaxDim(n, n);
    assert hi == 60 * n / 100;
    assert 15 * n / 100 < hi <= n - 2;
  }

  /** A rectangle whose centre was drawn from the ranges of a size d lies in
      the canvas, one pixel clear of its right and bottom edges, and its
      corners are ordered. */
  lemma RectCornersInCanvas(x: int, y: int, dw: nat, dh: nat, height: nat, width: nat)
    requires SpanLow(dw) <= x < SpanHigh(dw, width)
    requires SpanLow(dh) <= y < SpanHigh(dh, height)
    ensures var b := RectBox(x, y, dw, dh);
      0 <= b.x1 <= b.x2 <= width - 2 && 0 <= b.y1 <= b.y2 <= height - 2
  {
  }

  // ---------------------------------------------------------------------
  // Candidates as functions of the draws
  // ---------------------------------------------------------------------

  /** The disc `draw_circle` samples from the three raw draws at positions
      k, k + 1 and k + 2 of the stream: radius, then x, then y. */
  function CircleCandidate(source: nat -> nat, k: nat, height: nat, width: nat): Shape
    requires CircleFits(height, width)
  {
    var r := Pick(source(k), MinRadius(height, width), MaxRadius(height, width));
    CentreRangesFor(r, height, width);
    var x := Pick(source(k + 1), r + 1, width - r - 1);
    var y := Pick(source(k + 2), r + 1, height - r - 1);
    Disc(x, y, r)
  }

  /** A circle candidate has a radius in the drawn range and lies inside the
      canvas with a one-pixel margin on every side. */
  lemma CircleCandidateFits(source: nat -> nat, k: nat, height: nat, width: nat)
    requires CircleFits(height, width)
    ensures var s := CircleCandidate(source, k, height, width);
      s.Disc? && MinRadius(height, width) <= s.radius < MaxRadius(height, width) &&
      1 <= Bounds(s).x1 && Bounds(s).x2 <= width - 2 && 1 <= Bounds(s).y1 && Bounds(s).y2 <= height - 2
  {
  }

  /** A disc built from the three draws at positions k .. k + 2 is the
      circle candidate at k. */
  lemma CircleCandidateDraws(source: nat -> nat, k: nat, height: nat, width: nat, r: int, x: int, y: int)
    requires CircleFits(height, width)
    requires r == Pick(source(k), MinRadius(height, width), MaxRadius(height, width))
    requires CentreRangesNonEmpty(r, height, width)
    requires x == Pick(source(k + 1), r + 1, width - r - 1)
    requires y == Pick(source(k + 2), r + 1, height - r - 1)
    ensures r >= 0 && CircleCandidate(source, k, height, width) == Disc(x, y, r)
  {
  }

  /** The candidates of a `draw_circle` call whose first draw is at position
      start, trial by trial: each rejected trial moves three draws on, and
      the call gives up after TrialLimit of them (its counter runs from 1). */
  function CircleTrials(source: nat -> nat, start: nat, height: nat, width: nat): seq<Shape>
    requires CircleFits(height, width)
  {
    seq(TrialLimit, (t: nat) => CircleCandidate(source, start + 3 * t, height, width))
  }

  /** Trial t of a `draw_circle` call from `start` is the candidate at the
      draw position k = start + 3t. */
  lemma CircleTrialsAt(source: nat -> nat, start: nat, t: nat, k: nat, height: nat, width: nat)
    requires CircleFits(height, width) && t < TrialLimit && k == start + 3 * t
    ensures CircleTrials(source, start, height, width)[t] == CircleCandidate(source, k, height, width)
  {
  }

  /** Every circle trial is a disc with a radius in the drawn range, inside
      the canvas, of the circle category. */
  lemma CircleTrialsFit(source: nat -> nat, start: nat, height: nat, width: nat)
    requires CircleFits(height, width)
    ensures var trials := CircleTrials(source, start, height, width);
      |trials| == TrialLimit &&
      forall t :: 0 <= t < |trials| ==>
        trials[t].Disc? && MinRadius(height, width) <= trials[t].radius < MaxRadius(height, width) &&
        InCanvas(trials[t], height, width) && CategoryOf(trials[t]) == CircleShape
  {
    var trials := CircleTrials(source, start, height, width);
    forall t | 0 <= t < |trials|
      ensures trials[t].Disc? && MinRadius(height, width) <= trials[t].radius < MaxRadius(height, width) &&
        InCanvas(trials[t], height, width) && CategoryOf(trials[t]) == CircleShape
    {
      CircleTrialsAt(source, start, t, start + 3 * t, height, width);
      CircleCandidateFits(source, start + 3 * t, height, width);
    }
  }

  /** The integer box of a rectangle centred at (x, y) with drawn sizes dw
      and dh: `draw_rectangle` halves the sizes, passes the halves to
      `convert_box` as the full width and height, and truncates the corners,
      so each corner is the quotient (4x -/+ dw) / 4. */
  function RectBox(x: int, y: int, dw: nat, dh: nat): PixelBox {
    PixelBox((4 * x - dw) / 4, (4 * y - dh) / 4, (4 * x + dw) / 4, (4 * y + dh) / 4)
  }

  /** RectBox is `map(int, convert_box([x, y, dw / 2, dh / 2], 'x1y1x2y2'))`
      for a rectangle whose corners are not left of or above the canvas. */
  lemma RectBoxConverts(x: int, y: int, dw: nat, dh: nat)
    requires dw <= 4 * x && dh <= 4 * y
    ensures RectBox(x, y, dw, dh) == CenterToPixels(x, y, dw as real / 2.0, dh as real / 2.0)
  {
    var w, h := dw as real / 2.0, dh as real / 2.0;
    CenterToPixelsConverts(x, y, w, h);
    FloorOfQuotient(4 * x - dw, 4);
    FloorOfQuotient(4 * y - dh, 4);
    FloorOfQuotient(4 * x + dw, 4);
    FloorOfQuotient(4 * y + dh, 4);
    assert x as real - w / 2.0 == (4 * x - dw) as real / 4.0;
    assert y as real - h / 2.0 == (4 * y - dh) as real / 4.0;
    assert x as real + w / 2.0 == (4 * x + dw) as real / 4.0;
    assert y as real + h / 2.0 == (4 * y + dh) as real / 4.0;
  }

  /** The integer box `draw_rectangle` samples from the four raw draws at
      positions k .. k + 3: height and width in [MinDim, MaxDim), then the
      centre x and y in the ranges those sizes leave. */
  function RectCandidate(source: nat -> nat, k: nat, height: nat, width: nat): PixelBox
    requires RectFits(height, width)
  {
    var dh := Pick(source(k), MinDim(height, width), MaxDim(height, width));
    var dw := Pick(source(k + 1), MinDim(height, width), MaxDim(height, width));
    SpansNonEmpty(dh, height, width);
    SpansNonEmpty(dw, height, width);
    var x := Pick(source(k + 2), SpanLow(dw), SpanHigh(dw, width));
    var y := Pick(source(k + 3), SpanLow(dh), SpanHigh(dh, height));
    RectBox(x, y, dw, dh)
  }

  /** A rectangle candidate has ordered corners in [0, W - 2] x [0, H - 2]. */
  lemma RectCandidateFits(source: nat -> nat, k: nat, height: nat, width: nat)
    requires RectFits(height, width)
    ensures var b := RectCandidate(source, k, height, width);
      0 <= b.x1 <= b.x2 <= width - 2 && 0 <= b.y1 <= b.y2 <= height - 2
  {
    var dh := Pick(source(k), MinDim(height, width), MaxDim(height, width));
    var dw := Pick(source(k + 1), MinDim(height, width), MaxDim(height, width));
    SpansNonEmpty(dh, height, width);
    SpansNonEmpty(dw, height, width);
    var x := Pick(source(k + 2), SpanLow(dw), SpanHigh(dw, width));
    var y := Pick(source(k + 3), SpanLow(dh), SpanHigh(dh, height));
    RectCornersInCanvas(x, y, dw, dh, height, width);
  }

  /** The corners `draw_rectangle` computes from the four draws at positions
      k .. k + 3 make the rectangle trial at k. */
  lemma RectCandidateDraws(source: nat -> nat, k: nat, height: nat, width: nat, dh: nat, dw: nat, x: int, y: int)
    requires RectFits(height, width)
    requires dh == Pick(source(k), MinDim(height, width), MaxDim(height, width))
    requires dw == Pick(source(k + 1), MinDim(height, width), MaxDim(height, width))
    requires SpanLow(dw) < SpanHigh(dw, width) && SpanLow(dh) < SpanHigh(dh, height)
    requires x == Pick(source(k + 2), SpanLow(dw), SpanHigh(dw, width))
    requires y == Pick(source(k + 3), SpanLow(dh), SpanHigh(dh, height))
    ensures BlockOf(CenterToPixels(x, y, dw as real / 2.0, dh as real / 2.0)) == RectTrial(source, k, height, width)
  {
    SpanLowAbove(dw);
    SpanLowAbove(dh);
    RectBoxConverts(x, y, dw, dh);
    assert RectCandidate(source, k, height, width) == RectBox(x, y, dw, dh);
  }

  /** The sides of a rectangle candidate are within one pixel of half the
      drawn sizes: the code halves the drawn size and then passes that half on
      as the full width and height. */
  lemma RectCandidateSize(source: nat -> nat, k: nat, height: nat, width: nat)
    requires RectFits(height, width)
    ensures var b := RectCandidate(source, k, height, width);
      var dw := Pick(source(k + 1), MinDim(height, width), MaxDim(height, width));
      dw - 2 < 2 * (b.x2 - b.x1) < dw + 2
    ensures var b := RectCandidate(source, k, height, width);
      var dh := Pick(source(k), MinDim(height, width), MaxDim(height, width));
      dh - 2 < 2 * (b.y2 - b.y1) < dh + 2
  {
    var dh := Pick(source(k), MinDim(height, width), MaxDim(height, width));
    var dw := Pick(source(k + 1), MinDim(height, width), MaxDim(height, width));
    SpansNonEmpty(dh, height, width);
    SpansNonEmpty(dw, height, width);
    var x := Pick(source(k + 2), SpanLow(dw), SpanHigh(dw, width));
    var y := Pick(source(k + 3), SpanLow(dh), SpanHigh(dh, height));
    assert RectCandidate(source, k, height, width) == RectBox(x, y, dw, dh);
  }

  /** The filled footprint of a rectangle's integer box. */
  function BlockOf(b: PixelBox): Shape {
    Block(b.x1, b.y1, b.x2, b.y2)
  }

  /** The footprint of the rectangle candidate at draw position k. */
  function RectTrial(source: nat -> nat, k: nat, height: nat, width: nat): Shape
    requires RectFits(height, width)
  {
    BlockOf(RectCandidate(source, k, height, width))
  }

  /** The block of the rectangle candidate at k: inside the canvas, of the
      rectangle category, and about half the drawn size in each direction. */
  lemma RectTrialFits(source: nat -> nat, k: nat, height: nat, width: nat)
    requires RectFits(height, width)
    ensures var s := RectTrial(source, k, height, width);
      s.Block? && InCanvas(s, height, width) && CategoryOf(s) == RectangleShape &&
      MinDim(height, width) - 2 < 2 * (s.x2 - s.x1) < MaxDim(height, width) + 1 &&
      MinDim(height, width) - 2 < 2 * (s.y2 - s.y1) < MaxDim(height, width) + 1
  {
    RectCandidateFits(source, k, height, width);
    RectCandidateSize(source, k, height, width);
  }

  /** The candidates of a `draw_rectangle` call whose first draw is at
      position start, trial by trial: each rejected trial moves four draws
      on, and the call gives up after TrialLimit + 1 of them (its counter
      runs from 0). */
  function RectTrials(source: nat -> nat, start: nat, height: nat, width: nat): seq<Shape>
    requires RectFits(height, width)
  {
    seq(TrialLimit + 1, (t: nat) => RectTrial(source, start + 4 * t, height, width))
  }

  /** Trial t of a `draw_rectangle` call from `start` is the block at the
      draw position k = start + 4t. */
  lemma RectTrialsAt(source: nat -> nat, start: nat, t: nat, k: nat, height: nat, width: nat)
    requires RectFits(height, width) && t <= TrialLimit && k == start + 4 * t
    ensures RectTrials(source, start, height, width)[t] == RectTrial(source, k, height, width)
  {
  }

  /** Every rectangle trial is a block inside the canvas, of the rectangle
      category, measuring after truncation about half the drawn size in each
      direction: twice its side is within one pixel of a value in the size
      range. */
  lemma RectTrialsFit(source: nat -> nat, start: nat, height: nat, width: nat)
    requires RectFits(height, width)
    ensures var trials := RectTrials(source, start, height, width);
      |trials| == TrialLimit + 1 &&
      forall t :: 0 <= t < |trials| ==>
        trials[t].Block? && InCanvas(trials[t], height, width) && CategoryOf(trials[t]) == RectangleShape &&
        MinDim(height, width) - 2 < 2 * (trials[t].x2 - trials[t].x1) < MaxDim(height, width) + 1 &&
        MinDim(height, width) - 2 < 2 * (trials[t].y2 - trials[t].y1) < MaxDim(height, width) + 1
  {
    var trials := RectTrials(source, start, height, width);
    forall t | 0 <= t < |trials|
      ensures trials[t].Block? && InCanvas(trials[t], height, width) && CategoryOf(trials[t]) == RectangleShape &&
        MinDim(height, width) - 2 < 2 * (trials[t].x2 - trials[t].x1) < MaxDim(height, width) + 1 &&
        MinDim(height, width) - 2 < 2 * (trials[t].y2 - trials[t].y1) < MaxDim(height, width) + 1
    {
      RectTrialsAt(source, start, t, start + 4 * t, height, width);
      RectTrialFits(source, start + 4 * t, height, width);
    }
  }

  // ---------------------------------------------------------------------
  // The retry recursion, as a function of the occupied pixels and the draws
  // ---------------------------------------------------------------------

  /** How a placer's retry recursion ends: the footprint it accepted (`None`
      for the `{}` of an exhausted placer) and how many candidates it drew. */
  datatype Outcome = Outcome(accepted: Option<Shape>, attempts: nat)

  /** An outcome reached after n more rejected candidates. */
  function AfterRejections(o: Outcome, n: nat): Outcome {
    Outcome(o.accepted, o.attempts + n)
  }

  /** The retry recursion of both placers from trial t on, over the
      candidates of the call and the occupied pixels of the canvas: past the
      last trial it gives up; otherwise it accepts trial t when its footprint
      covers no occupied pixel, and recurses on trial t + 1 when it does. */
  ghost function FirstFree(occupied: set<(int, int)>, trials: seq<Shape>, t: nat): Outcome
    decreases |trials| - t
  {
    if t >= |trials| then Outcome(None, 0)
    else if FreeIn(occupied, trials[t]) then Outcome(Some(trials[t]), 1)
    else AfterRejections(FirstFree(occupied, trials, t + 1), 1)
  }

  /** From trial t on, the search accepts the first trial whose footprint is
      free, after rejecting every trial before it, and gives up exactly when
      every remaining trial overlaps occupied pixels. */
  lemma {:induction false} FirstFreeTrials(occupied: set<(int, int)>, trials: seq<Shape>, t: nat)
    requires t <= |trials|
    ensures var o := FirstFree(occupied, trials, t);
      t + o.attempts <= |trials| &&
      (o.accepted.None? ==> t + o.attempts == |trials|) &&
      (o.accepted.Some? ==>
        1 <= o.attempts && o.accepted.value == trials[t + o.attempts - 1] && FreeIn(occupied, o.accepted.value))
    ensures var o := FirstFree(occupied, trials, t);
      forall i :: t <= i < t + o.attempts - (if o.accepted.Some? then 1 else 0) ==> !FreeIn(occupied, trials[i])
    decreases |trials| - t
  {
    if t < |trials| && !FreeIn(occupied, trials[t]) {
      FirstFreeTrials(occupied, trials, t + 1);
    }
  }

  /** What a circle search decides: an accepted disc is free, inside the
      canvas, of the circle category and of a radius in the drawn range; a
      search that gives up has seen every one of its TrialLimit discs
      overlap. */
  lemma CircleAccepted(occupied: set<(int, int)>, source: nat -> nat, start: nat, height: nat, width: nat)
    requires CircleFits(height, width)
    ensures var o := FirstFree(occupied, CircleTrials(source, start, height, width), 0);
      o.accepted.Some? ==>
        var s := o.accepted.value;
        s.Disc? && FreeIn(occupied, s) && InCanvas(s, height, width) && CategoryOf(s) == CircleShape &&
        MinRadius(height, width) <= s.radius < MaxRadius(height, width)
    ensures var trials := CircleTrials(source, start, height, width);
      var o := FirstFree(occupied, trials, 0);
      o.accepted.None? ==>
        o.attempts == TrialLimit && forall t :: 0 <= t < TrialLimit ==> !FreeIn(occupied, trials[t])
  {
    FirstFreeTrials(occupied, CircleTrials(source, start, height, width), 0);
    CircleTrialsFit(source, start, height, width);
  }

  /** What a rectangle search decides: an accepted block is free, inside the
      canvas, of the rectangle category and about half the drawn size in each
      direction; a search that gives up has seen every one of its
      TrialLimit + 1 blocks overlap. */
  lemma RectAccepted(occupied: set<(int, int)>, source: nat -> nat, start: nat, height: nat, width: nat)
    requires RectFits(height, width)
    ensures var o := FirstFree(occupied, RectTrials(source, start, height, width), 0);
      o.accepted.Some? ==>
        var s := o.accepted.value;
        s.Block? && FreeIn(occupied, s) && InCanvas(s, height, width) && CategoryOf(s) == RectangleShape &&
        MinDim(height, width) - 2 < 2 * (s.x2 - s.x1) < MaxDim(height, width) + 1 &&
        MinDim(height, width) - 2 < 2 * (s.y2 - s.y1) < MaxDim(height, width) + 1
    ensures var trials := RectTrials(source, start, height, width);
      var o := FirstFree(occupied, trials, 0);
      o.accepted.None? ==>
        o.attempts == TrialLimit + 1 && forall t :: 0 <= t <= TrialLimit ==> !FreeIn(occupied, trials[t])
  {
    FirstFreeTrials(occupied, RectTrials(source, start, height, width), 0);
    RectTrialsFit(source, start, height, width);
  }

  // ---------------------------------------------------------------------
  // The placers
  // ---------------------------------------------------------------------

  /** The fill colour `colors[np.random.randint(0, 3)]` for raw draw `raw`. */
  function PaletteColor(raw: nat): (c: Rgb)
    ensures c in Palette && Occupied(c)
  {
    Palette[Pick(raw, 0, |Palette|)]
  }

  /** The placers' paint step: a colour drawn from the palette with one draw,
      then the filled draw call. The footprint's pixels become occupied and
      every other pixel keeps its occupancy. */
  method Fill(canvas: array2<Rgb>, s: Shape, rng: Rng, ghost k: nat) returns (color: Rgb)
    requires rng.drawn == k
    modifies canvas, rng
    ensures rng.drawn == k + 1
    ensures color == PaletteColor(rng.source(k))
    ensures forall y, x :: 0 <= y < canvas.Length0 && 0 <= x < canvas.Length1 ==>
      canvas[y, x] == if Covers(s, x, y) then color else old(canvas[y, x])
    ensures forall y, x :: 0 <= y < canvas.Length0 && 0 <= x < canvas.Length1 ==>
      (Occupied(canvas[y, x]) <==> old(Occupied(canvas[y, x])) || Covers(s, x, y))
  {
    var pick := rng.RandInt(0, |Palette|);
    color := Palette[pick];
    Paint(canvas, s, color);
  }

  /** One circle candidate of `draw_circle`: the radius, then the centre
      drawn so the disc stays inside the canvas with a one-pixel margin. */
  method SampleCircle(rng: Rng, height: nat, width: nat) returns (disc: Shape)
    requires CircleFits(height, width)
    modifies rng
    ensures rng.drawn == old(rng.drawn) + 3
    ensures disc.Disc? && disc == CircleCandidate(rng.source, old(rng.drawn), height, width)
  {
    ghost var k := rng.drawn;
    var radius := rng.RandInt(MinRadius(height, width), MaxRadius(height, width));
    CentreRangesFor(radius, height, width);
    var x := rng.RandInt(radius + 1, width - radius - 1);
    var y := rng.RandInt(radius + 1, height - radius - 1);
    CircleCandidateDraws(rng.source, k, height, width, radius, x, y);
    disc := Disc(x, y, radius);
  }

  /** The retry recursion of `draw_circle` as a loop; the recursion's
      `trials` is t + 1. Candidates are drawn until one is free on the canvas,
      which is only read: the result is the search over the call's trials. */
  method FindCircle(canvas: array2<Rgb>, rng: Rng) returns (found: bool, disc: Shape, ghost attempts: nat)
    requires CircleFits(canvas.Length0, canvas.Length1)
    modifies rng
    ensures disc.Disc? && rng.drawn == old(rng.drawn) + 3 * attempts
    ensures FirstFree(OccupiedPixels(canvas), CircleTrials(rng.source, old(rng.drawn), canvas.Length0, canvas.Length1), 0) ==
      Outcome(if found then Some(disc) else None, attempts)
  {
    ghost var start := rng.drawn;
    ghost var trials := CircleTrials(rng.source, start, canvas.Length0, canvas.Length1);
    ghost var occupied := OccupiedPixels(canvas);
    ghost var outcome := FirstFree(occupied, trials, 0);
    var t := 0;
    found, disc := false, Disc(0, 0, 0);
    while t < TrialLimit && !found
      invariant t <= TrialLimit && disc.Disc?
      invariant rng.drawn == start + 3 * t
      invariant !found ==> outcome == AfterRejections(FirstFree(occupied, trials, t), t)
      invariant found ==> outcome == Outcome(Some(disc), t)
    {
      ghost var k := rng.drawn;
      disc := SampleCircle(rng, canvas.Length0, canvas.Length1);
      CircleTrialsAt(rng.source, start, t, k, canvas.Length0, canvas.Length1);
      var hit := Collides(canvas, disc);
      found := !hit;
      t := t + 1;
    }
    attempts := t;
  }

  /** `draw_circle(rgb_canvas)`: the circle search decides the outcome.
      Each candidate takes three draws (radius, x, y) and an accepted disc
      one more for its colour; it is painted in that colour and annotated
      with its bounding box. When the search gives up, `{}` is returned and
      the canvas is left as it was. */
  method DrawCircle(canvas: array2<Rgb>, rng: Rng)
    returns (ann: Option<Annotation>, ghost shape: Shape, ghost color: Rgb, ghost attempts: nat)
    requires CircleFits(canvas.Length0, canvas.Length1)
    modifies canvas, rng
    ensures old(FirstFree(OccupiedPixels(canvas), CircleTrials(rng.source, rng.drawn, canvas.Length0, canvas.Length1), 0)) ==
      Outcome(if ann.Some? then Some(shape) else None, attempts)
    ensures rng.drawn == old(rng.drawn) + 3 * attempts + (if ann.Some? then 1 else 0)
    ensures ann.None? ==>
      forall y, x :: 0 <= y < canvas.Length0 && 0 <= x < canvas.Length1 ==> canvas[y, x] == old(canvas[y, x])
    ensures ann.Some? ==> ann.value == Annotation(Bounds(shape), CircleShape)
    ensures ann.Some? ==> color == PaletteColor(rng.source(old(rng.drawn) + 3 * attempts))
    ensures ann.Some? ==> forall y, x :: 0 <= y < canvas.Length0 && 0 <= x < canvas.Length1 ==>
      canvas[y, x] == if Covers(shape, x, y) then color else old(canvas[y, x])
    ensures ann.Some? ==> forall y, x :: 0 <= y < canvas.Length0 && 0 <= x < canvas.Length1 ==>
      (Occupied(canvas[y, x]) <==> old(Occupied(canvas[y, x])) || Covers(shape, x, y))
  {
    var found, disc;
    found, disc, attempts := FindCircle(canvas, rng);
    if found {
      var fill := Fill(canvas, disc, rng, old(rng.drawn) + 3 * attempts);
      CircleBoxExact(disc.cx, disc.cy, disc.radius);
      var box := CenterToPixels(disc.cx, disc.cy, (2 * disc.radius) as real, (2 * disc.radius) as real);
      ann := Some(Annotation(box, CircleShape));
      shape, color := disc, fill;
    } else {
      ann, shape, color := None, Disc(0, 0, 0), White;
    }
  }

  /** One rectangle candidate of `draw_rectangle`: its height and width
      draws, halved, then its centre drawn so the rectangle stays inside,
      and the corners truncated by `map(int, ...)`. */
  method SampleRectangle(rng: Rng, height: nat, width: nat) returns (box: PixelBox)
    requires RectFits(height, width)
    modifies rng
    ensures rng.drawn == old(rng.drawn) + 4
    ensures BlockOf(box) == RectTrial(rng.source, old(rng.drawn), height, width)
  {
    hide RectTrial;
    hide CenterToPixels;
    ghost var k := rng.drawn;
    var dh := rng.RandInt(MinDim(height, width), MaxDim(height, width));
    var dw := rng.RandInt(MinDim(height, width), MaxDim(height, width));
    assert dw == Pick(rng.source(k + 1), MinDim(height, width), MaxDim(height, width));
    SpansNonEmpty(dh, height, width);
    SpansNonEmpty(dw, height, width);
    var x := rng.RandInt(SpanLow(dw), SpanHigh(dw, width));
    assert x == Pick(rng.source(k + 2), SpanLow(dw), SpanHigh(dw, width));
    var y := rng.RandInt(SpanLow(dh), SpanHigh(dh, height));
    assert y == Pick(rng.source(k + 3), SpanLow(dh), SpanHigh(dh, height));
    box := CenterToPixels(x, y, dw as real / 2.0, dh as real / 2.0);
    RectCandidateDraws(rng.source, k, height, width, dh, dw, x, y);
  }

  /** The retry recursion of `draw_rectangle` as a loop on its counter
      `trials`, which starts at 0. Candidates are drawn until one is free on
      the canvas, which is only read: the result is the search over the
      call's trials. */
  method FindRectangle(canvas: array2<Rgb>, rng: Rng) returns (found: bool, box: PixelBox, ghost attempts: nat)
    requires RectFits(canvas.Length0, canvas.Length1)
    modifies rng
    ensures rng.drawn == old(rng.drawn) + 4 * attempts
    ensures FirstFree(OccupiedPixels(canvas), RectTrials(rng.source, old(rng.drawn), canvas.Length0, canvas.Length1), 0) ==
      Outcome(if found then Some(BlockOf(box)) else None, attempts)
  {
    ghost var start := rng.drawn;
    ghost var candidates := RectTrials(rng.source, start, canvas.Length0, canvas.Length1);
    ghost var occupied := OccupiedPixels(canvas);
    ghost var outcome := FirstFree(occupied, candidates, 0);
    var trials := 0;
    found, box := false, PixelBox(0, 0, 0, 0);
    while trials <= TrialLimit && !found
      invariant trials <= TrialLimit + 1
      invariant rng.drawn == start + 4 * trials
      invariant !found ==> outcome == AfterRejections(FirstFree(occupied, candidates, trials), trials)
      invariant found ==> outcome == Outcome(Some(BlockOf(box)), trials)
    {
      ghost var k := rng.drawn;
      box := SampleRectangle(rng, canvas.Length0, canvas.Length1);
      RectTrialsAt(rng.source, start, trials, k, canvas.Length0, canvas.Length1);
      assert candidates[trials] == BlockOf(box);
      var hit := Collides(canvas, BlockOf(box));
      assert hit == !FreeIn(occupied, candidates[trials]);
      found := !hit;
      trials := trials + 1;
    }
    attempts := trials;
  }

  /** `draw_rectangle(rgb_canvas)`: the rectangle search decides the
      outcome. Each candidate takes four draws (h, w, x, y) and an accepted
      block one more for its colour; it is painted in that colour and
      annotated with its corners. When the search gives up, `{}` is returned
      and the canvas is left as it was. */
  method DrawRectangle(canvas: array2<Rgb>, rng: Rng)
    returns (ann: Option<Annotation>, ghost shape: Shape, ghost color: Rgb, ghost attempts: nat)
    requires RectFits(canvas.Length0, canvas.Length1)
    modifies canvas, rng
    ensures old(FirstFree(OccupiedPixels(canvas), RectTrials(rng.source, rng.drawn, canvas.Length0, canvas.Length1), 0)) ==
      Outcome(if ann.Some? then Some(shape) else None, attempts)
    ensures rng.drawn == old(rng.drawn) + 4 * attempts + (if ann.Some? then 1 else 0)
    ensures ann.None? ==>
      forall y, x :: 0 <= y < canvas.Length0 && 0 <= x < canvas.Length1 ==> canvas[y, x] == old(canvas[y, x])
    ensures ann.Some? ==> ann.value == Annotation(Bounds(shape), RectangleShape)
    ensures ann.Some? ==> color == PaletteColor(rng.source(old(rng.drawn) + 4 * attempts))
    ensures ann.Some? ==> forall y, x :: 0 <= y < canvas.Length0 && 0 <= x < canvas.Length1 ==>
      canvas[y, x] == if Covers(shape, x, y) then color else old(canvas[y, x])
    ensures ann.Some? ==> forall y, x :: 0 <= y < canvas.Length0 && 0 <= x < canvas.Length1 ==>
      (Occupied(canvas[y, x]) <==> old(Occupied(canvas[y, x])) || Covers(shape, x, y))
  {
    var found, box;
    found, box, attempts := FindRectangle(canvas, rng);
    if found {
      var block := BlockOf(box);
      var fill := Fill(canvas, block, rng, old(rng.drawn) + 4 * attempts);
      ann := Some(Annotation(box, RectangleShape));
      shape, color := block, fill;
    } else {
      ann, shape, color := None, Block(0, 0, 0, 0), White;
    }
  }
}
