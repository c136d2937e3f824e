/** Axis-aligned boxes `[x1, y1, x2, y2]` in pixel coordinates, as the detectors report them. */
module Geometry {
  import opened Arith

  /** A box as the detectors return it (floating point coordinates). */
  datatype RealBox = RealBox(x1: real, y1: real, x2: real, y2: real)

  /** A box after `map(int, bbox)`. */
  datatype Box = Box(x1: int, y1: int, x2: int, y2: int) {
    predicate Ordered() { x1 <= x2 && y1 <= y2 }
    predicate Within(w: int, h: int) { 0 <= x1 <= x2 <= w && 0 <= y1 <= y2 <= h }
    function Width(): int { x2 - x1 }
    function Height(): int { y2 - y1 }
    function Area(): int { (x2 - x1) * (y2 - y1) }
  }

  /** A point `(x, y)`, e.g. the centre of a QR finder pattern. */
  datatype Point = Point(x: int, y: int)

  function ToInts(b: RealBox): (r: Box)
    ensures b.x1 >= 0.0 ==> r.x1 == b.x1.Floor
    ensures b.y1 >= 0.0 ==> r.y1 == b.y1.Floor
    ensures b.x2 >= 0.0 ==> r.x2 == b.x2.Floor
    ensures b.y2 >= 0.0 ==> r.y2 == b.y2.Floor
  {
    Box(Trunc(b.x1), Trunc(b.y1), Trunc(b.x2), Trunc(b.y2))
  }

  /**
   * A box of a `w` x `h` image seen in the image turned by 180 degrees:
   * both axes are mirrored and each pair of coordinates is re-sorted.
   */
  function Remap180(b: Box, w: int, h: int): (r: Box)
    ensures r.Ordered()
    ensures r.Area() == (if b.Ordered() || (b.x1 > b.x2 && b.y1 > b.y2) then b.Area() else -b.Area())
  {
    var u1, u2 := w - b.x2, w - b.x1;
    var v1, v2 := h - b.y2, h - b.y1;
    Box(Min(u1, u2), Min(v1, v2), Max(u1, u2), Max(v1, v2))
  }

  /** Remapping an ordered box twice gives the box back. */
  lemma RemapInvolution(b: Box, w: int, h: int)
    requires b.Ordered()
    ensures Remap180(Remap180(b, w, h), w, h) == b
  {}

  /** A box inside the image stays inside it after the remap. */
  lemma RemapWithin(b: Box, w: int, h: int)
    requires b.Within(w, h)
    ensures Remap180(b, w, h).Within(w, h)
  {}

  /** The remapped box holds exactly the mirrored points of the original. */
  lemma RemapMirrors(b: Box, w: int, h: int, x: int, y: int)
    requires b.Ordered()
    ensures var r := Remap180(b, w, h);
      (b.x1 <= x <= b.x2 && b.y1 <= y <= b.y2) <==> (r.x1 <= w - x <= r.x2 && r.y1 <= h - y <= r.y2)
  {}

  /** `max(0, x1), max(0, y1), min(w, x2), min(h, y2)`. */
  function Clamp(b: Box, w: int, h: int): (r: Box)
    ensures r.x1 >= 0 && r.y1 >= 0 && r.x2 <= w && r.y2 <= h
    ensures b.Within(w, h) ==> r == b
    ensures 0 <= w && 0 <= h && b.Ordered() && r.Ordered() ==> r.Within(w, h)
  {
    Box(Max(0, b.x1), Max(0, b.y1), Min(w, b.x2), Min(h, b.y2))
  }
}
