/**
 * The geometry shared by both versions of `process_and_crop_qr_region`:
 * boxes seen in the turned page, the window anchored at the QR code, the
 * rectangles that are painted white and the pixel each output pixel shows.
 */
module QrRegion {
  import opened Arith
  import opened Geometry
  import opened Raster

  /** A box in the coordinates of the page after it is (or is not) turned by `angle`. */
  function Oriented(b: Box, angle: int, w: int, h: int): (r: Box)
    ensures angle == 180 ==> r.Ordered()
    ensures angle != 180 ==> r == b
  {
    if angle == 180 then Remap180(b, w, h) else b
  }

  /**
   * The ID-card window: from the QR box's left edge `x1` to `x1 + w_box * right`
   * and from `y2 - h_box * up` down to the QR box's bottom edge `y2`, each
   * truncated with `int()` and clamped to the page.
   */
  function Window(q: Box, w: int, h: int, up: real, right: real): (r: Box)
    ensures r.x1 == Max(0, q.x1) && r.y2 == Min(h, q.y2)
    ensures r.x1 >= 0 && r.y1 >= 0 && r.x2 <= w && r.y2 <= h
  {
    var y1f := Max(0, Trunc(q.y2 as real - Times(q.Height(), up)));
    var x2f := Min(w, Trunc(q.x1 as real + Times(q.Width(), right)));
    Box(Max(0, q.x1), y1f, x2f, Min(h, q.y2))
  }

  /**
   * The two edges the expansion factors set: the top at `int(y2 - h_box * up)`
   * and the right at `int(x1 + w_box * right)`, each clamped to the page.
   */
  lemma WindowEdges(q: Box, w: int, h: int, up: real, right: real)
    ensures Window(q, w, h, up, right).y1 == Max(0, Trunc(q.y2 as real - q.Height() as real * up))
    ensures Window(q, w, h, up, right).x2 == Min(w, Trunc(q.x1 as real + q.Width() as real * right))
  {
    RaisedEdge(q.y2, q.Height(), up);
    ScaledEdge(q.x1, q.Width(), right);
  }

  /** An edge `a` moved by `n` pixels scaled by `f`, truncated with `int()`. */
  lemma ScaledEdge(a: int, n: int, f: real)
    ensures Trunc(a as real + Times(n, f)) == Trunc(a as real + n as real * f)
  {
    TimesIsProduct(n, f);
  }

  /** An edge `a` moved up by `n` pixels scaled by `f`, truncated with `int()`. */
  lemma RaisedEdge(a: int, n: int, f: real)
    ensures Trunc(a as real - Times(n, f)) == Trunc(a as real - n as real * f)
  {
    TimesIsProduct(n, f);
  }

  /** With factors of at least one, the window of a QR box inside the page contains that box. */
  lemma WindowContainsQr(q: Box, w: int, h: int, up: real, right: real)
    requires q.Within(w, h) && up >= 1.0 && right >= 1.0
    ensures var r := Window(q, w, h, up, right);
      r.x1 == q.x1 && r.y2 == q.y2 && r.y1 <= q.y1 && q.x2 <= r.x2 && r.Within(w, h)
  {
    var top := Trunc(q.y2 as real - Times(q.y2 - q.y1, up));
    var far := Trunc(q.x1 as real + Times(q.x2 - q.x1, right));
    WindowTop(q.y1, q.y2, up);
    WindowRight(q.x1, q.x2, right);
    ClampedWindow(q, w, h, top, far);
  }

  /** The clamped window of edges `top` above the QR box and `far` right of it. */
  lemma ClampedWindow(q: Box, w: int, h: int, top: int, far: int)
    requires q.Within(w, h) && top <= q.y1 && far >= q.x2
    ensures var r := Box(Max(0, q.x1), Max(0, top), Min(w, far), Min(h, q.y2));
      r.x1 == q.x1 && r.y2 == q.y2 && r.y1 <= q.y1 && q.x2 <= r.x2 && r.Within(w, h)
  {
  }

  lemma WindowTop(y1: int, y2: int, up: real)
    requires 0 <= y1 <= y2 && up >= 1.0
    ensures Trunc(y2 as real - Times(y2 - y1, up)) <= y1
  {
    TimesAtLeast(y2 - y1, up);
    TruncAtMost(y2 as real - Times(y2 - y1, up), y1);
  }

  lemma WindowRight(x1: int, x2: int, right: real)
    requires 0 <= x1 <= x2 && right >= 1.0
    ensures Trunc(x1 as real + Times(x2 - x1, right)) >= x2
  {
    TimesAtLeast(x2 - x1, right);
    TruncAtLeast(x1 as real + Times(x2 - x1, right), x2);
  }

  /** The pixels `img[y1:y2, x1:x2]` of a box on an `h` x `w` page. */
  function RectOf(b: Box, w: nat, h: nat): (r: Rect)
    ensures r.rows.hi <= h && r.cols.hi <= w
    ensures b.Within(w, h) ==> r == Rect(Span(b.y1, b.y2), Span(b.x1, b.x2))
  {
    SliceRect(b.y1, b.y2, b.x1, b.x2, h, w)
  }

  /** A layout `image` box in the turned page, clamped to it. */
  function ItemBox(b: RealBox, angle: int, w: int, h: int): (r: Box)
    ensures r.x1 >= 0 && r.y1 >= 0 && r.x2 <= w && r.y2 <= h
  {
    Clamp(Oriented(ToInts(b), angle, w, h), w, h)
  }

  /** The pixel at `(y, x)` of the page turned by `angle`. */
  function Source(image: array2<int>, angle: int, y: int, x: int): int
    reads image
    requires 0 <= y < image.Length0 && 0 <= x < image.Length1
  {
    if angle == 180 then Turned(image, y, x) else image[y, x]
  }

  /** The pixel at `(y, x)` of the turned page after the rectangles `paint` are whitened. */
  function Whitened(image: array2<int>, angle: int, paint: seq<Rect>, y: int, x: int): int
    reads image
    requires 0 <= y < image.Length0 && 0 <= x < image.Length1
  {
    if Painted(paint, y, x) then White else Source(image, angle, y, x)
  }

  /** Everything the crop is determined by, once the detections are known. */
  datatype QrPlan = QrPlan(angle: int, qr: Box, window: Box, paint: seq<Rect>, crop: Rect)

  /** The plan for a page with a QR box `q` (page coordinates) and a decided angle. */
  function PlanFor(q: Box, angle: int, w: nat, h: nat, paint: seq<Rect>, up: real, right: real): (p: QrPlan)
    ensures p.crop.rows.hi <= h && p.crop.cols.hi <= w
    ensures p.angle == angle && p.paint == paint
  {
    var qr := Oriented(q, angle, w, h);
    var window := Window(qr, w, h, up, right);
    QrPlan(angle, qr, window, paint, RectOf(window, w, h))
  }

  /** The crop picks exactly the window when the window is a proper box. */
  lemma CropIsWindow(q: Box, angle: int, w: nat, h: nat, paint: seq<Rect>, up: real, right: real)
    requires var win := PlanFor(q, angle, w, h, paint, up, right).window; win.Ordered() && win.Within(w, h)
    ensures var p := PlanFor(q, angle, w, h, paint, up, right);
      p.crop == Rect(Span(p.window.y1, p.window.y2), Span(p.window.x1, p.window.x2))
  {}

  /** The turned QR box is ordered, and inside the page when the original was. */
  lemma TurnedQrInside(q: Box, w: nat, h: nat)
    requires q.Within(w, h)
    ensures Oriented(q, 180, w, h).Within(w, h) && Oriented(q, 0, w, h) == q
  {
    RemapWithin(q, w, h);
  }

  /** `out` is the crop of the plan taken from the whitened, turned page. */
  predicate Shows(out: array2<int>, image: array2<int>, p: QrPlan)
    reads out, image
  {
    p.crop.rows.hi <= image.Length0 && p.crop.cols.hi <= image.Length1
    && out.Length0 == p.crop.rows.Length() && out.Length1 == p.crop.cols.Length()
    && forall i, j :: 0 <= i < out.Length0 && 0 <= j < out.Length1 ==>
         out[i, j] == Whitened(image, p.angle, p.paint, p.crop.rows.lo + i, p.crop.cols.lo + j)
  }

  /** `rotated_image[y1:y2, x1:x2]` for the plan's window. */
  method CropPlan(img: array2<int>, image: array2<int>, crop: Rect, ghost p: QrPlan) returns (out: array2<int>)
    requires crop == p.crop
    requires img.Length0 == image.Length0 && img.Length1 == image.Length1
    requires p.crop.rows.lo <= p.crop.rows.hi <= img.Length0 && p.crop.cols.lo <= p.crop.cols.hi <= img.Length1
    requires forall y, x :: 0 <= y < img.Length0 && 0 <= x < img.Length1 ==> img[y, x] == Whitened(image, p.angle, p.paint, y, x)
    ensures fresh(out) && Shows(out, image, p)
  {
    out := Crop(img, crop);
  }
}
