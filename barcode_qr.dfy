/**
 * `process_and_crop_qr_region` of the barcode helpers: the QR box is clamped
 * before its finder patterns are looked for, the three-point rule decides
 * the angle, and every `image` region is whitened, whatever its size.
 */
module BarcodeQr {
  import opened Wrappers
  import opened Arith
  import opened Geometry
  import opened Raster
  import opened Orientation
  import opened QrRegion
  import PdfQr

  /** The QR box clamped to the page, which is where the finder patterns are searched. */
  function FinderRegion(q: Box, w: nat, h: nat): (r: Rect)
    ensures r.rows.hi <= h && r.cols.hi <= w
    ensures q.Within(w, h) ==> r == RectOf(q, w, h)
  {
    RectOf(Clamp(q, w, h), w, h)
  }

  /** The angle: the three-point rule, used only when the clamped QR sub-image is not empty and three centres were found. */
  function Angle(q: Box, w: nat, h: nat, centres: seq<Point>): (a: int)
    ensures a == 0 || a == 180
    ensures |centres| < 3 ==> a == 0
  {
    if !FinderRegion(q, w, h).IsEmpty() && |centres| >= 3 then ThreePointRule(centres) else 0
  }

  /** Every layout box is whitened. */
  function PaintRects(items: seq<RealBox>, angle: int, w: nat, h: nat): (rs: seq<Rect>)
    ensures |rs| == |items|
    ensures forall k :: 0 <= k < |items| ==> rs[k] == RectOf(ItemBox(items[k], angle, w, h), w, h)
    decreases |items|
  {
    if |items| == 0 then []
    else
      var rs := PaintRects(items[..|items| - 1], angle, w, h);
      rs + [RectOf(ItemBox(items[|items| - 1], angle, w, h), w, h)]
  }

  function Plan(w: nat, h: nat, detections: seq<RealBox>, centres: seq<Point>, items: seq<RealBox>, up: real, right: real): (p: Option<QrPlan>)
    ensures p.None? <==> detections == []
    ensures p.Some? ==> p.value.crop.rows.hi <= h && p.value.crop.cols.hi <= w
  {
    if detections == [] then None
    else
      var q := ToInts(detections[0]);
      var angle := Angle(q, w, h, centres);
      Some(PlanFor(q, angle, w, h, PaintRects(items, angle, w, h), up, right))
  }

  /** The loop over the layout boxes: every one is whitened in place on the turned copy. */
  method WhitenItems(img: array2<int>, image: array2<int>, angle: int, items: seq<RealBox>)
    returns (ghost painted: seq<Rect>)
    requires img != image && img.Length0 == image.Length0 && img.Length1 == image.Length1
    requires forall y, x :: 0 <= y < img.Length0 && 0 <= x < img.Length1 ==> img[y, x] == Source(image, angle, y, x)
    modifies img
    ensures painted == PaintRects(items, angle, img.Length1, img.Length0)
    ensures forall y, x :: 0 <= y < img.Length0 && 0 <= x < img.Length1 ==> img[y, x] == Whitened(image, angle, painted, y, x)
  {
    var h, w := img.Length0, img.Length1;
    painted := [];
    var k := 0;
    while k < |items|
      invariant 0 <= k <= |items|
      invariant painted == PaintRects(items[..k], angle, w, h)
      invariant forall y, x :: 0 <= y < h && 0 <= x < w ==> img[y, x] == Whitened(image, angle, painted, y, x)
    {
      assert items[..k + 1][..k] == items[..k];
      var rect := RectOf(ItemBox(items[k], angle, w, h), w, h);
      FillWhite(img, rect);
      forall y, x | 0 <= y < h && 0 <= x < w ensures Painted(painted + [rect], y, x) <==> Painted(painted, y, x) || rect.Has(y, x) {
        PaintedAppend(painted, rect, y, x);
      }
      painted := painted + [rect];
      k := k + 1;
    }
    assert items[..k] == items;
  }

  method ProcessAndCropQrRegion(image: array2<int>, detections: seq<RealBox>, centres: seq<Point>, items: seq<RealBox>, up: real, right: real)
    returns (r: Option<array2<int>>)
    ensures var p := Plan(image.Length1, image.Length0, detections, centres, items, up, right);
      r.None? <==> p.None? || p.value.crop.IsEmpty()
    ensures var p := Plan(image.Length1, image.Length0, detections, centres, items, up, right);
      r.Some? ==> (p.Some? && fresh(r.value) && Shows(r.value, image, p.value))
  {
    if detections == [] {
      return None;
    }
    var h, w := image.Length0, image.Length1;
    var q := ToInts(detections[0]);
    var angle := Angle(q, w, h, centres);
    var img := PdfQr.TurnedCopy(image, angle);
    var painted := WhitenItems(img, image, angle, items);
    var window := Window(Oriented(q, angle, w, h), w, h, up, right);
    ghost var plan := PlanFor(q, angle, w, h, painted, up, right);
    assert Plan(w, h, detections, centres, items, up, right) == Some(plan);
    var crop := RectOf(window, w, h);
    if crop.IsEmpty() {
      return None;
    }
    var c := CropPlan(img, image, crop, plan);
    r := Some(c);
  }

  /** Every layout box covering a pixel whitens it: no area guard. */
  lemma AllItemsWhitened(items: seq<RealBox>, angle: int, w: nat, h: nat, k: nat, y: int, x: int)
    requires k < |items| && RectOf(ItemBox(items[k], angle, w, h), w, h).Has(y, x)
    ensures Painted(PaintRects(items, angle, w, h), y, x)
  {
    PaintedIff(PaintRects(items, angle, w, h), y, x);
  }

  /** For the same angle, whatever the generic version whitens this version whitens too. */
  lemma WhitensMore(items: seq<RealBox>, angle: int, w: nat, h: nat, expanded: int, y: int, x: int)
    requires Painted(PdfQr.PaintRects(items, angle, w, h, expanded), y, x)
    ensures Painted(PaintRects(items, angle, w, h), y, x)
  {
    PdfQr.PaintRectsMeaning(items, angle, w, h, expanded, y, x);
    var k :| 0 <= k < |items| && PdfQr.Whitens(items[k], angle, w, h, expanded, y, x);
    AllItemsWhitened(items, angle, w, h, k, y, x);
  }

  /** A large layout box, e.g. the card photo region spanning the window, is left alone by the generic version only. */
  lemma LargeItemOnlyHere(item: RealBox, angle: int, w: nat, h: nat, expanded: int, y: int, x: int)
    requires !PdfQr.Small(ItemBox(item, angle, w, h), expanded)
    requires RectOf(ItemBox(item, angle, w, h), w, h).Has(y, x)
    ensures Painted(PaintRects([item], angle, w, h), y, x)
    ensures !Painted(PdfQr.PaintRects([item], angle, w, h, expanded), y, x)
  {
    AllItemsWhitened([item], angle, w, h, 0, y, x);
    PdfQr.PaintRectsMeaning([item], angle, w, h, expanded, y, x);
  }
}
