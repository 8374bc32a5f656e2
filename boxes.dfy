/** Box arithmetic: `convert_box` between center form (x, y, w, h) and corner
    form (x1, y1, x2, y2), and the `map(int, ...)` that turns a converted box
    into integer pixel coordinates. */
module Boxes {
  import opened Numeric

  /** A four-element box list, in whichever form the caller means. */
  datatype Quad = Quad(a: real, b: real, c: real, d: real)

  /** The only error `convert_box` raises: its format assertion. */
  datatype BoxError = InvalidBoxFormat

  datatype Result<T> = Ok(value: T) | Err(error: BoxError)

  const CenterForm: string := "xywh"
  const CornerForm: string := "x1y1x2y2"

  /** `convert_box(box, out_format)`: to 'xywh' the box is read as corners;
      to 'x1y1x2y2' it is read as center, width and height; any other format
      fails the assertion. */
  function ConvertBox(box: Quad, outFormat: string): (r: Result<Quad>)
    ensures r.Ok? <==> outFormat == CenterForm || outFormat == CornerForm
    ensures outFormat == CenterForm ==> (r.Ok? &&
      r.value.a - r.value.c / 2.0 == box.a && r.value.a + r.value.c / 2.0 == box.c &&
      r.value.b - r.value.d / 2.0 == box.b && r.value.b + r.value.d / 2.0 == box.d)
    ensures outFormat == CornerForm ==> (r.Ok? &&
      r.value.c - r.value.a == box.c && r.value.d - r.value.b == box.d &&
      (r.value.a + r.value.c) / 2.0 == box.a && (r.value.b + r.value.d) / 2.0 == box.b)
  {
    if outFormat == CenterForm then
      var Quad(x1, y1, x2, y2) := box;
      Ok(Quad((x1 + x2) / 2.0, (y1 + y2) / 2.0, x2 - x1, y2 - y1))
    else if outFormat == CornerForm then
      var Quad(x, y, w, h) := box;
      Ok(Quad(x - w / 2.0, y - h / 2.0, x + w / 2.0, y + h / 2.0))
    else
      Err(InvalidBoxFormat)
  }

  /** Corner form to center form and back returns the original four values. */
  lemma CornerRoundTrip(box: Quad)
    ensures ConvertBox(box, CenterForm).Ok?
    ensures ConvertBox(ConvertBox(box, CenterForm).value, CornerForm) == Ok(box)
  {
    var center := ConvertBox(box, CenterForm).value;
    var back := ConvertBox(center, CornerForm).value;
    assert back.a == box.a && back.b == box.b && back.c == box.c && back.d == box.d;
  }

  /** Center form to corner form and back returns the original four values. */
  lemma CenterRoundTrip(box: Quad)
    ensures ConvertBox(box, CornerForm).Ok?
    ensures ConvertBox(ConvertBox(box, CornerForm).value, CenterForm) == Ok(box)
  {
    var corners := ConvertBox(box, CornerForm).value;
    var back := ConvertBox(corners, CenterForm).value;
    assert back.a == box.a && back.b == box.b && back.c == box.c && back.d == box.d;
  }

  /** An annotation box in integer pixel coordinates, corner form. */
  datatype PixelBox = PixelBox(x1: int, y1: int, x2: int, y2: int)

  /** `map(int, box)`: each coordinate truncated toward zero. */
  function ToPixels(q: Quad): (p: PixelBox)
    ensures q.a <= q.c ==> p.x1 <= p.x2
    ensures q.b <= q.d ==> p.y1 <= p.y2
  {
    TruncMonotone(q.a, q.c);
    TruncMonotone(q.b, q.d);
    PixelBox(Trunc(q.a), Trunc(q.b), Trunc(q.c), Trunc(q.d))
  }

  /** The corners of a center-form box: the 'x1y1x2y2' branch of
      `convert_box`. */
  function CornersOf(q: Quad): Quad {
    Quad(q.a - q.c / 2.0, q.b - q.d / 2.0, q.a + q.c / 2.0, q.b + q.d / 2.0)
  }

  /** The corner box `map(int, convert_box([x, y, w, h], 'x1y1x2y2'))` that
      both placers compute from a center and a size. */
  function CenterToPixels(x: int, y: int, w: real, h: real): (p: PixelBox)
    requires w >= 0.0 && h >= 0.0
    ensures p.x1 <= p.x2 && p.y1 <= p.y2
  {
    ToPixels(CornersOf(Quad(x as real, y as real, w, h)))
  }

  /** CenterToPixels is `map(int, ...)` applied to what `convert_box` returns
      for 'x1y1x2y2'. */
  lemma CenterToPixelsConverts(x: int, y: int, w: real, h: real)
    requires w >= 0.0 && h >= 0.0
    ensures ConvertBox(Quad(x as real, y as real, w, h), CornerForm).Ok?
    ensures CenterToPixels(x, y, w, h) == ToPixels(ConvertBox(Quad(x as real, y as real, w, h), CornerForm).value)
  {
    assert CornerForm != CenterForm by {
      assert |CornerForm| != |CenterForm|;
    }
  }

  /** The circle's annotation: a square of side 2r, exactly (x-r, y-r, x+r, y+r). */
  lemma CircleBoxExact(x: int, y: int, r: nat)
    ensures CenterToPixels(x, y, (2 * r) as real, (2 * r) as real)
         == PixelBox(x - r, y - r, x + r, y + r)
  {
    var q := CornersOf(Quad(x as real, y as real, (2 * r) as real, (2 * r) as real));
    assert q == Quad((x - r) as real, (y - r) as real, (x + r) as real, (y + r) as real);
    TruncOfInt(x - r);
    TruncOfInt(y - r);
    TruncOfInt(x + r);
    TruncOfInt(y + r);
  }

  /** After truncation the rectangle's corners still lie within a pixel of
      the exact ones, so its integer width is within one of w. */
  lemma RectBoxWidth(x: int, y: int, w: real, h: real)
    requires w >= 0.0 && h >= 0.0
    requires x as real - w / 2.0 >= 0.0 && y as real - h / 2.0 >= 0.0
    ensures var p := CenterToPixels(x, y, w, h);
      w - 1.0 < (p.x2 - p.x1) as real < w + 1.0 &&
      h - 1.0 < (p.y2 - p.y1) as real < h + 1.0
  {
  }
}
