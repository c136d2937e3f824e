/**
 * `process_and_crop_qr_region` of the generic PDF pipeline: turn the page
 * when the QR code is upside down, whiten the small `image` regions and
 * crop the ID card anchored at the QR code.
 */
module PdfQr {
  import opened Wrappers
  import opened Arith
  import opened Geometry
  import opened Raster
  import opened Orientation
  import opened QrRegion

  /**
   * The angle: the largest-gap rule on the finder centres found in the QR
   * box `img[y1:y2, x1:x2]` (unclamped), used only when that sub-image is
   * not empty and at least three centres were found.
   */
  function Angle(q: Box, w: nat, h: nat, centres: seq<Point>): (a: int)
    ensures a == 0 || a == 180
    ensures |centres| < 3 ==> a == 0
  {
    if !RectOf(q, w, h).IsEmpty() && |centres| >= 3 then LargestGapRule(centres) else 0
  }

  /** A layout box is whitened only when its area is below 0.3 times the window's area. */
  predicate Small(b: Box, expanded: int) {
    10 * b.Area() < 3 * expanded
  }

  /** The rectangles whitened, in the order of the layout boxes. */
  function PaintRects(items: seq<RealBox>, angle: int, w: nat, h: nat, expanded: int): (rs: seq<Rect>)
    ensures |rs| <= |items|
    ensures forall k :: 0 <= k < |rs| ==> rs[k].rows.hi <= h && rs[k].cols.hi <= w
    decreases |items|
  {
    if |items| == 0 then []
    else
      var rs := PaintRects(items[..|items| - 1], angle, w, h, expanded);
      var b := ItemBox(items[|items| - 1], angle, w, h);
      if Small(b, expanded) then rs + [RectOf(b, w, h)] else rs
  }

  /** The layout box `b` is small enough and covers the pixel. */
  predicate Whitens(b: RealBox, angle: int, w: nat, h: nat, expanded: int, y: int, x: int) {
    var box := ItemBox(b, angle, w, h);
    Small(box, expanded) && RectOf(box, w, h).Has(y, x)
  }

  /** A pixel is whitened exactly when some small layout box covers it. */
  lemma PaintRectsMeaning(items: seq<RealBox>, angle: int, w: nat, h: nat, expanded: int, y: int, x: int)
    ensures Painted(PaintRects(items, angle, w, h, expanded), y, x) <==>
      exists k :: 0 <= k < |items| && Whitens(items[k], angle, w, h, expanded, y, x)
  {
    PaintPrefix(items, |items|, angle, w, h, expanded, y, x);
    SomeWhitensMeans(items, |items|, angle, w, h, expanded, y, x);
    assert items[..|items|] == items;
  }

  /** Some one of the first `n` layout boxes whitens the pixel. */
  predicate SomeWhitens(items: seq<RealBox>, n: nat, angle: int, w: nat, h: nat, expanded: int, y: int, x: int)
    requires n <= |items|
    decreases n
  {
    n > 0 && (SomeWhitens(items, n - 1, angle, w, h, expanded, y, x) || Whitens(items[n - 1], angle, w, h, expanded, y, x))
  }

  lemma {:induction false} PaintPrefix(items: seq<RealBox>, n: nat, angle: int, w: nat, h: nat, expanded: int, y: int, x: int)
    requires n <= |items|
    ensures Painted(PaintRects(items[..n], angle, w, h, expanded), y, x) <==> SomeWhitens(items, n, angle, w, h, expanded, y, x)
    decreases n
  {
    if n > 0 {
      PaintPrefix(items, n - 1, angle, w, h, expanded, y, x);
      PrefixStep(items, n, angle, w, h, expanded, y, x);
    } else {
      assert items[..0] == [];
    }
  }

  lemma {:induction false} SomeWhitensMeans(items: seq<RealBox>, n: nat, angle: int, w: nat, h: nat, expanded: int, y: int, x: int)
    requires n <= |items|
    ensures SomeWhitens(items, n, angle, w, h, expanded, y, x) <==>
      exists k :: 0 <= k < n && Whitens(items[k], angle, w, h, expanded, y, x)
    decreases n
  {
    if n > 0 {
      SomeWhitensMeans(items, n - 1, angle, w, h, expanded, y, x);
      ExistsLast(items, n, angle, w, h, expanded, y, x);
    }
  }

  lemma ExistsLast(items: seq<RealBox>, n: nat, angle: int, w: nat, h: nat, expanded: int, y: int, x: int)
    requires 0 < n <= |items|
    ensures (exists k :: 0 <= k < n && Whitens(items[k], angle, w, h, expanded, y, x)) <==>
      (exists k :: 0 <= k < n - 1 && Whitens(items[k], angle, w, h, expanded, y, x))
      || Whitens(items[n - 1], angle, w, h, expanded, y, x)
  {
    if exists k :: 0 <= k < n && Whitens(items[k], angle, w, h, expanded, y, x) {
      var k :| 0 <= k < n && Whitens(items[k], angle, w, h, expanded, y, x);
      assert k < n - 1 || k == n - 1;
    }
  }

  lemma PrefixStep(items: seq<RealBox>, n: nat, angle: int, w: nat, h: nat, expanded: int, y: int, x: int)
    requires 0 < n <= |items|
    ensures Painted(PaintRects(items[..n], angle, w, h, expanded), y, x) <==>
      Painted(PaintRects(items[..n - 1], angle, w, h, expanded), y, x)
      || Whitens(items[n - 1], angle, w, h, expanded, y, x)
  {
    assert items[..n][..n - 1] == items[..n - 1];
    assert items[..n][n - 1] == items[n - 1];
    PaintRectsStep(items[..n], angle, w, h, expanded, y, x);
  }

  lemma PaintRectsStep(items: seq<RealBox>, angle: int, w: nat, h: nat, expanded: int, y: int, x: int)
    requires |items| > 0
    ensures Painted(PaintRects(items, angle, w, h, expanded), y, x) <==>
      Painted(PaintRects(items[..|items| - 1], angle, w, h, expanded), y, x)
      || Whitens(items[|items| - 1], angle, w, h, expanded, y, x)
  {
    var rs := PaintRects(items[..|items| - 1], angle, w, h, expanded);
    var b := ItemBox(items[|items| - 1], angle, w, h);
    if Small(b, expanded) {
      PaintedAppend(rs, RectOf(b, w, h), y, x);
    }
  }

  /** The whole plan; None when there is no detection. */
  function Plan(w: nat, h: nat, detections: seq<RealBox>, centres: seq<Point>, items: seq<RealBox>, up: real, right: real): (p: Option<QrPlan>)
    ensures p.None? <==> detections == []
    ensures p.Some? ==> p.value.crop.rows.hi <= h && p.value.crop.cols.hi <= w
  {
    if detections == [] then None
    else
      var q := ToInts(detections[0]);
      var angle := Angle(q, w, h, centres);
      var window := Window(Oriented(q, angle, w, h), w, h, up, right);
      Some(PlanFor(q, angle, w, h, PaintRects(items, angle, w, h, window.Area()), up, right))
  }

  /** `image.copy()`, then `cv2.rotate(..., ROTATE_180)` when the angle is 180. */
  method TurnedCopy(image: array2<int>, angle: int) returns (img: array2<int>)
    ensures fresh(img) && img.Length0 == image.Length0 && img.Length1 == image.Length1
    ensures forall y, x :: 0 <= y < img.Length0 && 0 <= x < img.Length1 ==> img[y, x] == Source(image, angle, y, x)
  {
    if angle == 180 {
      img := Rotate180(image);
    } else {
      img := Copy(image);
    }
  }

  /** The loop over the layout boxes: each small one is whitened in place on the turned copy. */
  method WhitenItems(img: array2<int>, image: array2<int>, angle: int, items: seq<RealBox>, expanded: int)
    returns (ghost painted: seq<Rect>)
    requires img != image && img.Length0 == image.Length0 && img.Length1 == image.Length1
    requires forall y, x :: 0 <= y < img.Length0 && 0 <= x < img.Length1 ==> img[y, x] == Source(image, angle, y, x)
    modifies img
    ensures painted == PaintRects(items, angle, img.Length1, img.Length0, expanded)
    ensures forall y, x :: 0 <= y < img.Length0 && 0 <= x < img.Length1 ==> img[y, x] == Whitened(image, angle, painted, y, x)
  {
    var h, w := img.Length0, img.Length1;
    painted := [];
    var k := 0;
    while k < |items|
      invariant 0 <= k <= |items|
      invariant painted == PaintRects(items[..k], angle, w, h, expanded)
      invariant forall y, x :: 0 <= y < h && 0 <= x < w ==> img[y, x] == Whitened(image, angle, painted, y, x)
    {
      assert items[..k + 1][..k] == items[..k];
      var b := ItemBox(items[k], angle, w, h);
      if Small(b, expanded) {
        var rect := RectOf(b, w, h);
        FillWhite(img, rect);
        forall y, x | 0 <= y < h && 0 <= x < w ensures Painted(painted + [rect], y, x) <==> Painted(painted, y, x) || rect.Has(y, x) {
          PaintedAppend(painted, rect, y, x);
        }
        painted := painted + [rect];
      }
      k := k + 1;
    }
    assert items[..k] == items;
  }

  /** The crop that `process_and_crop_qr_region` returns: None without detections or when the crop is empty. */
  method ProcessAndCropQrRegion(image: array2<int>, detections: seq<RealBox>, centres: seq<Point>, items: seq<RealBox>, up: real, right: real)
    returns (r: Option<array2<int>>)
    ensures var p := Plan(image.Length1, image.Length0, detections, centres, items, up, right);
      r.None? <==> p.None? || p.value.crop.IsEmpty()
    ensures var p := Plan(image.Length1, image.Length0, detections, centres, items, up, right);
      r.Some? ==> (p.Some? && fresh(r.value) && Shows(r.value, image, p.value))
  {
    if detections == [] {
      return None;
    }
    var h, w := image.Length0, image.Length1;
    var q := ToInts(detections[0]);
    var angle := Angle(q, w, h, centres);
    var img := TurnedCopy(image, angle);
    var window := Window(Oriented(q, angle, w, h), w, h, up, right);
    var painted := WhitenItems(img, image, angle, items, window.Area());
    ghost var plan := PlanFor(q, angle, w, h, painted, up, right);
    assert Plan(w, h, detections, centres, items, up, right) == Some(plan);
    var crop := RectOf(window, w, h);
    if crop.IsEmpty() {
      return None;
    }
    var c := CropPlan(img, image, crop, plan);
    r := Some(c);
  }
}
