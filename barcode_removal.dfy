/**
 * `remove_barcode` of the generic PDF pipeline: each detected barcode box is
 * grown by a tenth of its width on both sides and by four tenths of its
 * height above and below, clamped to the last pixel row and column, and
 * drawn as a filled white rectangle (both corners included) on a copy.
 * Pillow's `ImageDraw.rectangle` raises `ValueError` for corners out of order.
 */
module PdfBarcode {
  import opened Wrappers
  import opened Arith
  import opened Geometry
  import opened Raster

  /** The grown box `[new_x1, new_y1, new_x2, new_y2]` on a `w` x `h` page. */
  function Grown(b: RealBox, w: int, h: int): (r: Box)
    ensures r.x1 >= 0 && r.y1 >= 0 && r.x2 <= w - 1 && r.y2 <= h - 1
  {
    var bw := b.x2 - b.x1;
    var bh := b.y2 - b.y1;
    Box(Max(0, Trunc(b.x1 - bw / 10.0)), Max(0, Trunc(b.y1 - bh * 0.4)),
        Min(w - 1, Trunc(b.x2 + bw / 10.0)), Min(h - 1, Trunc(b.y2 + bh * 0.4)))
  }

  /** The rectangle `draw.rectangle` refuses: a second corner left of or above the first. */
  predicate DrawRefused(g: Box) {
    g.x2 < g.x1 || g.y2 < g.y1
  }

  /**
   * The pixels of a box drawn with both corners included and clipped to the
   * page. It is drawn only when `DrawRefused` does not hold; the span of a
   * refused box is empty.
   */
  function Drawn(g: Box, w: nat, h: nat): (r: Rect)
    requires g.x1 >= 0 && g.y1 >= 0 && g.x2 < w && g.y2 < h
    ensures r.rows.hi <= h && r.cols.hi <= w
    ensures forall y, x :: r.Has(y, x) <==> g.y1 <= y <= g.y2 && g.x1 <= x <= g.x2
  {
    var top, left := Min(g.y1, h), Min(g.x1, w);
    Rect(Span(top, Max(top, g.y2 + 1)), Span(left, Max(left, g.x2 + 1)))
  }

  function Rects(boxes: seq<RealBox>, w: nat, h: nat): (rs: seq<Rect>)
    ensures |rs| == |boxes|
    ensures forall k :: 0 <= k < |boxes| ==> rs[k] == Drawn(Grown(boxes[k], w, h), w, h)
    decreases |boxes|
  {
    if |boxes| == 0 then []
    else Rects(boxes[..|boxes| - 1], w, h) + [Drawn(Grown(boxes[|boxes| - 1], w, h), w, h)]
  }

  /** A pixel is whitened exactly when it lies in some grown box, corners included. */
  lemma WhitenedPixels(boxes: seq<RealBox>, w: nat, h: nat, y: int, x: int)
    ensures Painted(Rects(boxes, w, h), y, x) <==>
      exists k :: 0 <= k < |boxes| && Grown(boxes[k], w, h).y1 <= y <= Grown(boxes[k], w, h).y2
        && Grown(boxes[k], w, h).x1 <= x <= Grown(boxes[k], w, h).x2
  {
    PaintedIff(Rects(boxes, w, h), y, x);
  }

  /** The grown box holds the detected box when that box lies in the page (whole-pixel corners). */
  lemma GrownContains(b: RealBox, w: int, h: int)
    requires 0.0 <= b.x1 <= b.x2 <= (w - 1) as real && 0.0 <= b.y1 <= b.y2 <= (h - 1) as real
    ensures var g := Grown(b, w, h);
      g.x1 <= b.x1.Floor && b.x2.Floor <= g.x2 && g.y1 <= b.y1.Floor && b.y2.Floor <= g.y2
  {
    var bw := b.x2 - b.x1;
    var bh := b.y2 - b.y1;
    assert b.x1 - bw / 10.0 <= b.x1 && b.x2 + bw / 10.0 >= b.x2;
    assert b.y1 - bh * 0.4 <= b.y1 && b.y2 + bh * 0.4 >= b.y2;
  }

  /** The drawing error of `ImageDraw.rectangle`. */
  datatype DrawError = CornersOutOfOrder

  /**
   * With no detection the very same image comes back. When some grown box
   * has its corners out of order, the drawing raises and no image comes
   * back. Otherwise the result is a copy with the grown boxes whitened, and
   * the input is left as it was.
   */
  method RemoveBarcode(img: array2<int>, boxes: seq<RealBox>) returns (r: Result<array2<int>, DrawError>)
    ensures r.Err? <==> exists k :: 0 <= k < |boxes| && DrawRefused(Grown(boxes[k], img.Length1, img.Length0))
    ensures boxes == [] ==> r == Ok(img)
    ensures boxes != [] && r.Ok? ==> fresh(r.value)
    ensures r.Ok? ==> r.value.Length0 == img.Length0 && r.value.Length1 == img.Length1
    ensures r.Ok? ==> forall y, x :: 0 <= y < img.Length0 && 0 <= x < img.Length1 ==>
      r.value[y, x] == if Painted(Rects(boxes, img.Length1, img.Length0), y, x) then White else img[y, x]
  {
    if |boxes| == 0 {
      return Ok(img);
    }
    var h, w := img.Length0, img.Length1;
    var out := Copy(img);
    ghost var drawn: seq<Rect> := [];
    var k := 0;
    while k < |boxes|
      invariant 0 <= k <= |boxes|
      invariant fresh(out) && out.Length0 == h && out.Length1 == w
      invariant forall j :: 0 <= j < k ==> !DrawRefused(Grown(boxes[j], w, h))
      invariant drawn == Rects(boxes[..k], w, h)
      invariant forall y, x :: 0 <= y < h && 0 <= x < w ==> out[y, x] == if Painted(drawn, y, x) then White else img[y, x]
    {
      var g := Grown(boxes[k], w, h);
      if DrawRefused(g) {
        return Err(CornersOutOfOrder);
      }
      assert boxes[..k + 1][..k] == boxes[..k];
      var rect := Drawn(g, w, h);
      FillWhite(out, rect);
      forall y, x | 0 <= y < h && 0 <= x < w ensures Painted(drawn + [rect], y, x) <==> Painted(drawn, y, x) || rect.Has(y, x) {
        PaintedAppend(drawn, rect, y, x);
      }
      drawn := drawn + [rect];
      k := k + 1;
    }
    assert boxes[..k] == boxes;
    r := Ok(out);
  }

  /** A zero-width detection on the right edge grows into a box whose right corner lies left of its left one. */
  lemma RightEdgeDetectionRaises(w: nat, h: nat, y1: real, y2: real)
    requires w > 0 && 0.0 <= y1 <= y2 <= (h - 1) as real
    ensures DrawRefused(Grown(RealBox(w as real, y1, w as real, y2), w, h))
  {
    var g := Grown(RealBox(w as real, y1, w as real, y2), w, h);
    assert g.x1 == w;
  }
}

/**
 * `remove_barcode` of the layout preprocessing: integer boxes grown by
 * `int(w * 0.1)` and `int(h * 0.4)`, clamped to `[0, width] x [0, height]`
 * as slice bounds, whitened on a copy of the input.
 */
module Preprocessing {
  import opened Wrappers
  import opened Arith
  import opened Geometry
  import opened Raster

  /** The grown box for one detection on a `w` x `h` page. */
  function Expanded(b: RealBox, w: int, h: int): (r: Box)
    ensures r.x1 >= 0 && r.y1 >= 0 && r.x2 <= w && r.y2 <= h
  {
    var q := ToInts(b);
    var ew := Trunc((q.x2 - q.x1) as real / 10.0);
    var eh := Trunc((q.y2 - q.y1) as real * 0.4);
    Box(Max(0, q.x1 - ew), Max(0, q.y1 - eh), Min(w, q.x2 + ew), Min(h, q.y2 + eh))
  }

  /** The grown box contains the detected box when that box lies in the page. */
  lemma ExpandedContains(b: RealBox, w: int, h: int)
    requires ToInts(b).Within(w, h)
    ensures var q, e := ToInts(b), Expanded(b, w, h);
      e.x1 <= q.x1 && e.y1 <= q.y1 && q.x2 <= e.x2 && q.y2 <= e.y2 && e.Within(w, h)
  {}

  /**
   * The expansion amounts are a tenth of the width and four tenths of the
   * height, rounded down: the left and top edges move out by them, and so do
   * the right and bottom edges, which are clamped to the page.
   */
  lemma ExpansionAmounts(b: RealBox, w: int, h: int)
    requires ToInts(b).Within(w, h)
    requires ToInts(b).x1 >= (ToInts(b).x2 - ToInts(b).x1) / 10 && ToInts(b).y1 >= 2 * (ToInts(b).y2 - ToInts(b).y1) / 5
    ensures var q := ToInts(b);
      Expanded(b, w, h).x1 == q.x1 - (q.x2 - q.x1) / 10 && Expanded(b, w, h).y1 == q.y1 - 2 * (q.y2 - q.y1) / 5
    ensures var q := ToInts(b);
      Expanded(b, w, h).x2 == Min(w, q.x2 + (q.x2 - q.x1) / 10) && Expanded(b, w, h).y2 == Min(h, q.y2 + 2 * (q.y2 - q.y1) / 5)
  {
    var q := ToInts(b);
    var dw := (q.x2 - q.x1) as real / 10.0;
    assert dw.Floor == (q.x2 - q.x1) / 10;
    var dh := (q.y2 - q.y1) as real * 0.4;
    assert dh == (2 * (q.y2 - q.y1)) as real / 5.0;
    assert dh.Floor == 2 * (q.y2 - q.y1) / 5;
  }

  /** The boxes of all results in order; a result without boxes contributes nothing. */
  function AllBoxes(results: seq<Option<seq<RealBox>>>): (bs: seq<RealBox>)
    decreases |results|
  {
    if |results| == 0 then []
    else
      var last := results[|results| - 1];
      AllBoxes(results[..|results| - 1]) + (if last.None? then [] else last.value)
  }

  function RectsOf(boxes: seq<RealBox>, w: nat, h: nat): (rs: seq<Rect>)
    ensures |rs| == |boxes|
    ensures forall k :: 0 <= k < |boxes| ==> rs[k] == RectOfBox(Expanded(boxes[k], w, h), w, h)
    ensures forall k :: 0 <= k < |rs| ==> rs[k].rows.hi <= h && rs[k].cols.hi <= w
    decreases |boxes|
  {
    if |boxes| == 0 then []
    else RectsOf(boxes[..|boxes| - 1], w, h) + [RectOfBox(Expanded(boxes[|boxes| - 1], w, h), w, h)]
  }

  /** `img[y1:y2, x1:x2]`. */
  function RectOfBox(b: Box, w: nat, h: nat): (r: Rect)
    ensures r.rows.hi <= h && r.cols.hi <= w
    ensures b.Within(w, h) ==> r == Rect(Span(b.y1, b.y2), Span(b.x1, b.x2))
  {
    SliceRect(b.y1, b.y2, b.x1, b.x2, h, w)
  }

  lemma NoRectsYet(drawn: seq<Rect>, boxes: seq<RealBox>, w: nat, h: nat)
    ensures drawn + RectsOf(boxes[..0], w, h) == drawn
  {
    assert boxes[..0] == [];
  }

  lemma RectsOfSnoc(boxes: seq<RealBox>, j: nat, w: nat, h: nat)
    requires j < |boxes|
    ensures RectsOf(boxes[..j + 1], w, h) == RectsOf(boxes[..j], w, h) + [RectOfBox(Expanded(boxes[j], w, h), w, h)]
  {
    assert boxes[..j + 1][..j] == boxes[..j];
  }

  lemma DrawnSnoc(drawn: seq<Rect>, boxes: seq<RealBox>, j: nat, w: nat, h: nat)
    requires j < |boxes|
    ensures drawn + RectsOf(boxes[..j + 1], w, h) == drawn + RectsOf(boxes[..j], w, h) + [RectOfBox(Expanded(boxes[j], w, h), w, h)]
  {
    RectsOfSnoc(boxes, j, w, h);
  }

  lemma RectsOfAppend(a: seq<RealBox>, b: seq<RealBox>, w: nat, h: nat)
    ensures RectsOf(a + b, w, h) == RectsOf(a, w, h) + RectsOf(b, w, h)
  {
    var l, r := RectsOf(a + b, w, h), RectsOf(a, w, h) + RectsOf(b, w, h);
    forall k | 0 <= k < |l| ensures l[k] == r[k] {
      if k < |a| {
        assert (a + b)[k] == a[k];
      } else {
        assert (a + b)[k] == b[k - |a|];
      }
    }
  }

  /** Results that carry no boxes change no pixel. */
  lemma EmptyResultsChangeNothing(results: seq<Option<seq<RealBox>>>, r: Option<seq<RealBox>>)
    requires r.None? || r.value == []
    ensures AllBoxes(results + [r]) == AllBoxes(results)
  {
    assert (results + [r])[..|results|] == results;
  }

  /** `out` is `img` with every pixel that one of `rs` covers set to white. */
  ghost predicate WhitenedBy(out: array2<int>, img: array2<int>, rs: seq<Rect>)
    reads out, img
  {
    out.Length0 == img.Length0 && out.Length1 == img.Length1 &&
    forall y, x :: 0 <= y < img.Length0 && 0 <= x < img.Length1 ==> out[y, x] == if Painted(rs, y, x) then White else img[y, x]
  }

  /** Whitening one more rectangle keeps `out` equal to the image with every painted rectangle whitened. */
  method PaintRect(out: array2<int>, img: array2<int>, ghost now: seq<Rect>, rect: Rect)
    requires out != img && out.Length0 == img.Length0 && out.Length1 == img.Length1
    requires rect.rows.hi <= img.Length0 && rect.cols.hi <= img.Length1
    requires WhitenedBy(out, img, now)
    modifies out
    ensures WhitenedBy(out, img, now + [rect])
  {
    FillWhite(out, rect);
    forall y, x | 0 <= y < img.Length0 && 0 <= x < img.Length1
      ensures Painted(now + [rect], y, x) <==> Painted(now, y, x) || rect.Has(y, x)
    {
      PaintedAppend(now, rect, y, x);
    }
  }

  /** One pass of the inner loop: box `j` of a result, grown, clamped and whitened. */
  method WhitenBox(out: array2<int>, img: array2<int>, ghost drawn: seq<Rect>, boxes: seq<RealBox>, j: nat)
    requires out != img && out.Length0 == img.Length0 && out.Length1 == img.Length1 && j < |boxes|
    requires WhitenedBy(out, img, drawn + RectsOf(boxes[..j], img.Length1, img.Length0))
    modifies out
    ensures WhitenedBy(out, img, drawn + RectsOf(boxes[..j + 1], img.Length1, img.Length0))
  {
    var h, w := img.Length0, img.Length1;
    ghost var now := drawn + RectsOf(boxes[..j], w, h);
    var rect := RectOfBox(Expanded(boxes[j], w, h), w, h);
    DrawnSnoc(drawn, boxes, j, w, h);
    PaintRect(out, img, now, rect);
  }

  /** The inner loop: the boxes of one result, whitened in place after the rectangles `drawn` so far. */
  method WhitenResult(out: array2<int>, img: array2<int>, ghost drawn: seq<Rect>, boxes: seq<RealBox>)
    requires out != img && out.Length0 == img.Length0 && out.Length1 == img.Length1
    requires WhitenedBy(out, img, drawn)
    modifies out
    ensures WhitenedBy(out, img, drawn + RectsOf(boxes, img.Length1, img.Length0))
  {
    var h, w := img.Length0, img.Length1;
    var j := 0;
    NoRectsYet(drawn, boxes, w, h);
    while j < |boxes|
      invariant 0 <= j <= |boxes|
      invariant WhitenedBy(out, img, drawn + RectsOf(boxes[..j], w, h))
    {
      WhitenBox(out, img, drawn, boxes, j);
      j := j + 1;
    }
    assert boxes[..j] == boxes;
  }

  /** The boxes of the first `i + 1` results: those of the first `i`, then the boxes of result `i`. */
  lemma AllBoxesStep(results: seq<Option<seq<RealBox>>>, i: nat)
    requires i < |results|
    ensures AllBoxes(results[..i + 1]) == AllBoxes(results[..i]) + (if results[i].None? then [] else results[i].value)
  {
    assert results[..i + 1][..i] == results[..i];
  }

  lemma RectsStep(results: seq<Option<seq<RealBox>>>, i: nat, w: nat, h: nat, boxes: seq<RealBox>)
    requires i < |results| && boxes == if results[i].None? then [] else results[i].value
    ensures RectsOf(AllBoxes(results[..i + 1]), w, h) == RectsOf(AllBoxes(results[..i]), w, h) + RectsOf(boxes, w, h)
  {
    AllBoxesStep(results, i);
    RectsOfAppend(AllBoxes(results[..i]), boxes, w, h);
  }

  /** One pass of the outer loop: the boxes of result `i`, if it has any, are whitened. */
  method WhitenStep(out: array2<int>, img: array2<int>, results: seq<Option<seq<RealBox>>>, i: nat)
    requires out != img && out.Length0 == img.Length0 && out.Length1 == img.Length1 && i < |results|
    requires WhitenedBy(out, img, RectsOf(AllBoxes(results[..i]), img.Length1, img.Length0))
    modifies out
    ensures WhitenedBy(out, img, RectsOf(AllBoxes(results[..i + 1]), img.Length1, img.Length0))
  {
    var h, w := img.Length0, img.Length1;
    var boxes := results[i];
    ghost var drawn := RectsOf(AllBoxes(results[..i]), w, h);
    if boxes.None? || |boxes.value| == 0 {
      RectsStep(results, i, w, h, []);
      assert drawn + RectsOf([], w, h) == drawn;
    } else {
      WhitenResult(out, img, drawn, boxes.value);
      RectsStep(results, i, w, h, boxes.value);
    }
  }

  /** The outer loop over detection results; a result without boxes is passed over. */
  method WhitenBoxes(out: array2<int>, img: array2<int>, results: seq<Option<seq<RealBox>>>)
    requires out != img && out.Length0 == img.Length0 && out.Length1 == img.Length1
    requires forall y, x :: 0 <= y < img.Length0 && 0 <= x < img.Length1 ==> out[y, x] == img[y, x]
    modifies out
    ensures forall y, x :: 0 <= y < img.Length0 && 0 <= x < img.Length1 ==>
      out[y, x] == if Painted(RectsOf(AllBoxes(results), img.Length1, img.Length0), y, x) then White else img[y, x]
  {
    var h, w := img.Length0, img.Length1;
    var i := 0;
    assert results[..0] == [];
    while i < |results|
      invariant 0 <= i <= |results|
      invariant WhitenedBy(out, img, RectsOf(AllBoxes(results[..i]), w, h))
    {
      WhitenStep(out, img, results, i);
      i := i + 1;
    }
    assert results[..i] == results;
  }

  /** The input is copied first, so the caller's image never changes. */
  method RemoveBarcode(img: array2<int>, results: seq<Option<seq<RealBox>>>) returns (out: array2<int>)
    ensures fresh(out) && out.Length0 == img.Length0 && out.Length1 == img.Length1
    ensures forall y, x :: 0 <= y < img.Length0 && 0 <= x < img.Length1 ==>
      out[y, x] == if Painted(RectsOf(AllBoxes(results), img.Length1, img.Length0), y, x) then White else img[y, x]
  {
    out := Copy(img);
    WhitenBoxes(out, img, results);
  }
}
