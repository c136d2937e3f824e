/**
 * The crop helpers: each computes a crop box `(left, upper, right, lower)`
 * for a PIL `Image.crop`, which makes an image of exactly that size, fills
 * what lies outside the source with black, and refuses a box whose right or
 * lower edge lies before its left or upper edge.
 */
module ImageUtils {
  import opened Wrappers
  import opened Arith
  import opened Geometry

  datatype CropBox = CropBox(left: int, upper: int, right: int, lower: int)

  datatype CropError = CoordinateOrder

  /** The pixel of `img` at `(y, x)`, black outside the image. */
  function PixelOrBlack(img: array2<int>, y: int, x: int): int
    reads img
  {
    if 0 <= y < img.Length0 && 0 <= x < img.Length1 then img[y, x] else 0
  }

  /** `Image.crop(box)` on whole-pixel boxes. */
  method PilCrop(img: array2<int>, box: CropBox) returns (r: Result<array2<int>, CropError>)
    ensures r.Err? <==> box.right < box.left || box.lower < box.upper
    ensures r.Ok? ==> fresh(r.value)
    ensures r.Ok? ==> r.value.Length0 == box.lower - box.upper && r.value.Length1 == box.right - box.left
    ensures r.Ok? ==> (forall i, j :: 0 <= i < r.value.Length0 && 0 <= j < r.value.Length1 ==>
      r.value[i, j] == PixelOrBlack(img, box.upper + i, box.left + j))
  {
    if box.right < box.left || box.lower < box.upper {
      return Err(CoordinateOrder);
    }
    var out := new int[box.lower - box.upper, box.right - box.left];
    forall i, j | 0 <= i < out.Length0 && 0 <= j < out.Length1 {
      out[i, j] := PixelOrBlack(img, box.upper + i, box.left + j);
    }
    return Ok(out);
  }

  /** `crop_below_bbox`: the full width, from row `int(y1)` to the bottom. */
  function CropBelowBox(w: nat, h: nat, b: RealBox): (c: CropBox)
    ensures c.left == 0 && c.right == w && c.lower == h
    ensures b.y1 >= 0.0 ==> c.upper == b.y1.Floor
  {
    CropBox(0, Trunc(b.y1), w, h)
  }

  /** `crop_from_lower`: the full width, from row `int(y2) + offset` to the bottom, not clamped. */
  function CropFromLowerBox(w: nat, h: nat, b: RealBox, offset: int): (c: CropBox)
    ensures c.left == 0 && c.right == w && c.lower == h
    ensures c.upper == Trunc(b.y2) + offset
  {
    CropBox(0, Trunc(b.y2) + offset, w, h)
  }

  /** `crop_from_upper`: the full width, from the top to row `int(y1) - offset`, never above row 0. */
  function CropFromUpperBox(w: nat, h: nat, b: RealBox, offset: int): (c: CropBox)
    ensures c.left == 0 && c.upper == 0 && c.right == w && c.lower >= 0
    ensures Trunc(b.y1) - offset >= 0 ==> c.lower == Trunc(b.y1) - offset
  {
    CropBox(0, 0, w, Max(0, Trunc(b.y1) - offset))
  }

  /** Python's `round`: to the nearest integer, halves to the even neighbour. */
  function Round(x: real): (n: int)
    ensures x - 0.5 <= n as real <= x + 0.5
    ensures n as real == x + 0.5 || n as real == x - 0.5 ==> n % 2 == 0
  {
    var f := x.Floor;
    var frac := x - f as real;
    if frac < 0.5 then f
    else if frac > 0.5 then f + 1
    else if f % 2 == 0 then f else f + 1
  }

  lemma RoundWhole(n: int)
    ensures Round(n as real) == n
  {}

  /** `crop_region_from_image`: the box itself, each coordinate rounded as `Image.crop` does. */
  function CropRegionBox(b: RealBox): (c: CropBox)
    ensures c.left == Round(b.x1) && c.upper == Round(b.y1) && c.right == Round(b.x2) && c.lower == Round(b.y2)
  {
    CropBox(Round(b.x1), Round(b.y1), Round(b.x2), Round(b.y2))
  }

  /** A well-formed detection box never makes `crop_region_from_image` fail. */
  lemma CropRegionOrdered(b: RealBox)
    requires b.x1 <= b.x2 && b.y1 <= b.y2
    ensures var c := CropRegionBox(b); c.left <= c.right && c.upper <= c.lower
  {
    RoundMonotone(b.x1, b.x2);
    RoundMonotone(b.y1, b.y2);
  }

  /**
   * `crop_region_from_image` as `Image.crop` runs it: the raw box is refused
   * when its right or lower edge lies before its left or upper edge, and only
   * then are the edges rounded, which can no longer put them out of order.
   */
  function CropRegion(b: RealBox): (r: Result<CropBox, CropError>)
    ensures r.Err? <==> b.x2 < b.x1 || b.y2 < b.y1
    ensures r.Ok? ==> r.value == CropRegionBox(b)
    ensures r.Ok? ==> r.value.left <= r.value.right && r.value.upper <= r.value.lower
  {
    if b.x2 < b.x1 || b.y2 < b.y1 then Err(CoordinateOrder)
    else CropRegionOrdered(b); Ok(CropRegionBox(b))
  }

  /** Edges out of order by less than half a pixel round to the same column, yet the crop is refused. */
  lemma RefusedBeforeRounding()
    ensures var b := RealBox(10.4, 0.0, 10.2, 5.0);
      CropRegion(b).Err? && CropRegionBox(b).left == CropRegionBox(b).right
  {
    var b := RealBox(10.4, 0.0, 10.2, 5.0);
    assert Round(b.x1) == 10 && Round(b.x2) == 10;
  }

  lemma RoundMonotone(x: real, y: real)
    requires x <= y
    ensures Round(x) <= Round(y)
  {}

  const DefaultOffset: int := 50

  /** Cutting above a box never fails, whatever the box. */
  lemma CropFromUpperNeverFails(w: nat, h: nat, b: RealBox, offset: int)
    ensures var c := CropFromUpperBox(w, h, b, offset); c.left <= c.right && c.upper <= c.lower
  {}

  /** Cutting below a box fails exactly when the cut row lies below the page. */
  lemma CropFromLowerFails(w: nat, h: nat, b: RealBox, offset: int)
    ensures var c := CropFromLowerBox(w, h, b, offset);
      (c.right < c.left || c.lower < c.upper) <==> Trunc(b.y2) + offset > h
  {}

  /** Cutting below a box inside the page keeps rows `int(y1)` to the bottom, one for one. */
  lemma CropBelowKeepsRows(w: nat, h: nat, b: RealBox)
    requires 0.0 <= b.y1 && b.y1.Floor <= h
    ensures var c := CropBelowBox(w, h, b);
      c.lower - c.upper == h - b.y1.Floor && c.right - c.left == w
  {}

  /** A coordinate of a box list: a number, or something `float()` refuses. */
  datatype Coord = Num(v: real) | NotNumber

  /** `vertical_distance`: `b2[1] - b1[3]`, or 0.0 when either is missing or not a number. */
  function VerticalDistance(b1: seq<Coord>, b2: seq<Coord>): (d: real)
    ensures |b1| < 4 || |b2| < 2 ==> d == 0.0
  {
    if |b1| < 4 || |b2| < 2 then 0.0
    else if b1[3].NotNumber? || b2[1].NotNumber? then 0.0
    else b2[1].v - b1[3].v
  }

  function AsCoords(b: RealBox): seq<Coord> {
    [Num(b.x1), Num(b.y1), Num(b.x2), Num(b.y2)]
  }

  /** Between two boxes: the gap from the first box's bottom edge to the second box's top edge, positive exactly when the second starts below the first. */
  lemma VerticalDistanceOfBoxes(a: RealBox, b: RealBox)
    ensures VerticalDistance(AsCoords(a), AsCoords(b)) == b.y1 - a.y2
    ensures VerticalDistance(AsCoords(a), AsCoords(b)) > 0.0 <==> b.y1 > a.y2
  {}

  /**
   * Two well-formed boxes cannot each lie below the other: the two distances
   * add up to minus the sum of their heights.
   */
  lemma VerticalDistanceOpposite(a: RealBox, b: RealBox)
    requires a.y1 <= a.y2 && b.y1 <= b.y2
    ensures VerticalDistance(AsCoords(a), AsCoords(b)) + VerticalDistance(AsCoords(b), AsCoords(a))
      == -((a.y2 - a.y1) + (b.y2 - b.y1))
    ensures !(VerticalDistance(AsCoords(a), AsCoords(b)) > 0.0 && VerticalDistance(AsCoords(b), AsCoords(a)) > 0.0)
  {}

  /** A malformed box gives 0.0 rather than an error. */
  lemma VerticalDistanceMalformed(b1: seq<Coord>, b2: seq<Coord>)
    requires |b1| >= 4 && |b2| >= 2 && (b1[3].NotNumber? || b2[1].NotNumber?)
    ensures VerticalDistance(b1, b2) == 0.0
  {}
}
