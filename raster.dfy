/** The canvas compositor: an H x W RGB canvas that starts white, the two
    shape footprints, the masks the placers derive from the canvas, and the
    filled paint of a footprint. Pixel (x, y) is `canvas[y, x]`: rows are the
    canvas height, columns its width, as in a numpy image. */
module Raster {
  import opened Boxes

  newtype byte = x: int | 0 <= x < 256

  datatype Rgb = Rgb(r: byte, g: byte, b: byte)

  const White: Rgb := Rgb(255, 255, 255)

  /** The three fill colours red, green and blue. */
  const Palette: seq<Rgb> := [Rgb(255, 0, 0), Rgb(0, 255, 0), Rgb(0, 0, 255)]

  /** A pixel is occupied when it is not white in every channel. */
  predicate Occupied(c: Rgb) {
    c != White
  }

  /** The pixel footprint of a filled shape. A disc stands for what cv2.circle
      paints with thickness -1; a block is cv2.rectangle's inclusive fill. */
  datatype Shape =
    | Disc(cx: int, cy: int, radius: nat)
    | Block(x1: int, y1: int, x2: int, y2: int)

  predicate Covers(s: Shape, x: int, y: int) {
    match s
    case Disc(cx, cy, r) => (x - cx) * (x - cx) + (y - cy) * (y - cy) <= r * r
    case Block(x1, y1, x2, y2) => x1 <= x <= x2 && y1 <= y <= y2
  }

  /** The smallest axis-aligned box around a footprint. */
  function Bounds(s: Shape): PixelBox {
    match s
    case Disc(cx, cy, r) => PixelBox(cx - r, cy - r, cx + r, cy + r)
    case Block(x1, y1, x2, y2) => PixelBox(x1, y1, x2, y2)
  }

  lemma SquareGrows(r: int, d: int)
    ensures 0 <= r < d ==> r * r < d * d
  {
    if 0 <= r < d {
      assert r * r <= r * d < d * d;
    }
  }

  lemma SquareBound(d: int, r: int)
    requires 0 <= r && d * d <= r * r
    ensures -r <= d <= r
  {
    SquareGrows(r, d);
    SquareGrows(r, -d);
  }

  /** Every pixel of a footprint lies in its bounding box. */
  lemma CoversWithinBounds(s: Shape, x: int, y: int)
    requires Covers(s, x, y)
    ensures Bounds(s).x1 <= x <= Bounds(s).x2 && Bounds(s).y1 <= y <= Bounds(s).y2
  {
    if s.Disc? {
      assert (x - s.cx) * (x - s.cx) <= s.radius * s.radius;
      assert (y - s.cy) * (y - s.cy) <= s.radius * s.radius;
      SquareBound(x - s.cx, s.radius);
      SquareBound(y - s.cy, s.radius);
    }
  }

  /** The footprint's bounding box lies inside a height x width canvas. */
  predicate InCanvas(s: Shape, height: int, width: int) {
    var b := Bounds(s);
    0 <= b.x1 <= b.x2 < width && 0 <= b.y1 <= b.y2 < height
  }

  /** A footprint inside the canvas has all its pixels inside the canvas. */
  lemma InCanvasCovers(s: Shape, height: int, width: int, x: int, y: int)
    requires InCanvas(s, height, width) && Covers(s, x, y)
    ensures 0 <= x < width && 0 <= y < height
  {
    CoversWithinBounds(s, x, y);
  }

  /** No pixel is covered by both footprints. */
  ghost predicate Disjoint(s: Shape, t: Shape) {
    forall x, y :: !(Covers(s, x, y) && Covers(t, x, y))
  }

  /** The coordinates (x, y) of the canvas's occupied pixels. */
  ghost function OccupiedPixels(canvas: array2<Rgb>): set<(int, int)>
    reads canvas
  {
    set y, x | 0 <= y < canvas.Length0 && 0 <= x < canvas.Length1 && Occupied(canvas[y, x]) :: (x, y)
  }

  /** The footprint covers none of the given occupied pixels. */
  ghost predicate FreeIn(occupied: set<(int, int)>, s: Shape) {
    forall p :: p in occupied ==> !Covers(s, p.0, p.1)
  }

  /** `np.uint8(~np.all(rgb_canvas == [255, 255, 255], axis=-1))`: the
      occupancy mask of the canvas. */
  method OccupancyMask(canvas: array2<Rgb>) returns (mask: array2<bool>)
    ensures fresh(mask)
    ensures mask.Length0 == canvas.Length0 && mask.Length1 == canvas.Length1
    ensures forall y, x :: 0 <= y < mask.Length0 && 0 <= x < mask.Length1 ==>
      mask[y, x] == Occupied(canvas[y, x])
  {
    mask := new bool[canvas.Length0, canvas.Length1];
    var y := 0;
    while y < canvas.Length0
      invariant 0 <= y <= canvas.Length0
      invariant forall i, j :: 0 <= i < y && 0 <= j < mask.Length1 ==> mask[i, j] == Occupied(canvas[i, j])
    {
      var x := 0;
      while x < canvas.Length1
        invariant 0 <= x <= canvas.Length1
        invariant forall i, j :: 0 <= i < y && 0 <= j < mask.Length1 ==> mask[i, j] == Occupied(canvas[i, j])
        invariant forall j :: 0 <= j < x ==> mask[y, j] == Occupied(canvas[y, j])
      {
        mask[y, x] := Occupied(canvas[y, x]);
        x := x + 1;
      }
      y := y + 1;
    }
  }

  /** `np.zeros_like(mask)` with the shape drawn on it in value 1: the
      candidate's footprint mask. */
  method FootprintMask(height: nat, width: nat, s: Shape) returns (mask: array2<bool>)
    ensures fresh(mask)
    ensures mask.Length0 == height && mask.Length1 == width
    ensures forall y, x :: 0 <= y < height && 0 <= x < width ==> mask[y, x] == Covers(s, x, y)
  {
    mask := new bool[height, width];
    var y := 0;
    while y < height
      invariant 0 <= y <= height
      invariant forall i, j :: 0 <= i < y && 0 <= j < width ==> mask[i, j] == Covers(s, j, i)
    {
      var x := 0;
      while x < width
        invariant 0 <= x <= width
        invariant forall i, j :: 0 <= i < y && 0 <= j < width ==> mask[i, j] == Covers(s, j, i)
        invariant forall j :: 0 <= j < x ==> mask[y, j] == Covers(s, j, y)
      {
        mask[y, x] := Covers(s, x, y);
        x := x + 1;
      }
      y := y + 1;
    }
  }

  /** `np.any(np.logical_and(a, b))`. */
  method AnyOverlap(a: array2<bool>, b: array2<bool>) returns (hit: bool)
    requires a.Length0 == b.Length0 && a.Length1 == b.Length1
    ensures hit <==> exists y, x :: 0 <= y < a.Length0 && 0 <= x < a.Length1 && a[y, x] && b[y, x]
  {
    hit := false;
    var y := 0;
    while y < a.Length0
      invariant 0 <= y <= a.Length0
      invariant !hit ==> forall i, j :: 0 <= i < y && 0 <= j < a.Length1 ==> !(a[i, j] && b[i, j])
      invariant hit ==> exists i, j :: 0 <= i < a.Length0 && 0 <= j < a.Length1 && a[i, j] && b[i, j]
    {
      var x := 0;
      while x < a.Length1
        invariant 0 <= x <= a.Length1
        invariant !hit ==> forall i, j :: 0 <= i < y && 0 <= j < a.Length1 ==> !(a[i, j] && b[i, j])
        invariant !hit ==> forall j :: 0 <= j < x ==> !(a[y, j] && b[y, j])
        invariant hit ==> exists i, j :: 0 <= i < a.Length0 && 0 <= j < a.Length1 && a[i, j] && b[i, j]
      {
        if a[y, x] && b[y, x] {
          hit := true;
        }
        x := x + 1;
      }
      y := y + 1;
    }
  }

  /** The placers' overlap test, `np.any(np.logical_and(mask, shape_mask))`
      on the occupancy mask and the candidate's footprint mask: a collision
      exactly when some pixel of the footprint on the canvas is occupied. */
  method Collides(canvas: array2<Rgb>, s: Shape) returns (hit: bool)
    ensures hit == !FreeIn(OccupiedPixels(canvas), s)
  {
    var occupied := OccupancyMask(canvas);
    var footprint := FootprintMask(canvas.Length0, canvas.Length1, s);
    hit := AnyOverlap(footprint, occupied);
    if hit {
      ghost var y, x :| 0 <= y < canvas.Length0 && 0 <= x < canvas.Length1 && footprint[y, x] && occupied[y, x];
      assert (x, y) in OccupiedPixels(canvas) && Covers(s, x, y);
    } else {
      forall p | p in OccupiedPixels(canvas)
        ensures !Covers(s, p.0, p.1)
      {
        var x, y := p.0, p.1;
        assert 0 <= y < canvas.Length0 && 0 <= x < canvas.Length1 && Occupied(canvas[y, x]);
        assert occupied[y, x] && !footprint[y, x];
      }
    }
  }

  /** The filled cv2 draw call on the real canvas: every pixel of the
      footprint takes the colour, every other pixel keeps its own. */
  method Paint(canvas: array2<Rgb>, s: Shape, color: Rgb)
    modifies canvas
    ensures forall y, x :: 0 <= y < canvas.Length0 && 0 <= x < canvas.Length1 ==>
      canvas[y, x] == if Covers(s, x, y) then color else old(canvas[y, x])
  {
    var y := 0;
    while y < canvas.Length0
      invariant 0 <= y <= canvas.Length0
      invariant forall i, j :: 0 <= i < y && 0 <= j < canvas.Length1 ==>
        canvas[i, j] == if Covers(s, j, i) then color else old(canvas[i, j])
      invariant forall i, j :: y <= i < canvas.Length0 && 0 <= j < canvas.Length1 ==>
        canvas[i, j] == old(canvas[i, j])
    {
      var x := 0;
      while x < canvas.Length1
        invariant 0 <= x <= canvas.Length1
        invariant forall i, j :: 0 <= i < y && 0 <= j < canvas.Length1 ==>
          canvas[i, j] == if Covers(s, j, i) then color else old(canvas[i, j])
        invariant forall j :: 0 <= j < x ==>
          canvas[y, j] == if Covers(s, j, y) then color else old(canvas[y, j])
        invariant forall i, j :: 0 <= i < canvas.Length0 && 0 <= j < canvas.Length1 && (i > y || (i == y && j >= x)) ==>
          canvas[i, j] == old(canvas[i, j])
      {
        if Covers(s, x, y) {
          canvas[y, x] := color;
        }
        x := x + 1;
      }
      y := y + 1;
    }
  }
}
