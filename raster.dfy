/**
 * Single-channel page images as 2-D arrays: `img[y, x]`, `Length0` rows
 * (the height) and `Length1` columns (the width); 255 is white.
 */
module Raster {
  import opened Arith

  const White: int := 255

  /** A rectangle of pixels picked by `img[rows, cols]`. */
  datatype Rect = Rect(rows: Span, cols: Span) {
    predicate Has(y: int, x: int) { rows.Has(y) && cols.Has(x) }
    predicate IsEmpty() { rows.IsEmpty() || cols.IsEmpty() }
  }

  /** `img[r0:r1, c0:c1]` on an image of `h` rows and `w` columns. */
  function SliceRect(r0: int, r1: int, c0: int, c1: int, h: nat, w: nat): (r: Rect)
    ensures r.rows.hi <= h && r.cols.hi <= w
  {
    Rect(PySlice(r0, r1, h), PySlice(c0, c1, w))
  }

  /** Some rectangle of `rs` holds the pixel. */
  predicate Painted(rs: seq<Rect>, y: int, x: int)
    decreases |rs|
  {
    |rs| > 0 && (Painted(rs[..|rs| - 1], y, x) || rs[|rs| - 1].Has(y, x))
  }

  lemma {:induction false} PaintedIff(rs: seq<Rect>, y: int, x: int)
    ensures Painted(rs, y, x) <==> exists k :: 0 <= k < |rs| && rs[k].Has(y, x)
    decreases |rs|
  {
    if |rs| > 0 {
      var init := rs[..|rs| - 1];
      PaintedIff(init, y, x);
      if Painted(init, y, x) {
        var k :| 0 <= k < |init| && init[k].Has(y, x);
        assert rs[k] == init[k];
      }
      if exists k :: 0 <= k < |rs| && rs[k].Has(y, x) {
        var k :| 0 <= k < |rs| && rs[k].Has(y, x);
        if k < |init| {
          assert init[k] == rs[k];
        }
      }
    }
  }

  lemma PaintedAppend(rs: seq<Rect>, r: Rect, y: int, x: int)
    ensures Painted(rs + [r], y, x) <==> Painted(rs, y, x) || r.Has(y, x)
  {
    assert (rs + [r])[..|rs|] == rs;
  }

  /** The pixel of `a` seen at `(y, x)` after turning `a` by 180 degrees. */
  function Turned(a: array2<int>, y: int, x: int): int
    reads a
    requires 0 <= y < a.Length0 && 0 <= x < a.Length1
  {
    a[a.Length0 - 1 - y, a.Length1 - 1 - x]
  }

  /** `img.copy()`. */
  method Copy(a: array2<int>) returns (b: array2<int>)
    ensures fresh(b) && b.Length0 == a.Length0 && b.Length1 == a.Length1
    ensures forall y, x :: 0 <= y < a.Length0 && 0 <= x < a.Length1 ==> b[y, x] == a[y, x]
  {
    b := new int[a.Length0, a.Length1];
    forall y, x | 0 <= y < a.Length0 && 0 <= x < a.Length1 {
      b[y, x] := a[y, x];
    }
  }

  /** `cv2.rotate(img, ROTATE_180)`: same size, pixel `(y, x)` comes from `(h-1-y, w-1-x)`. */
  method Rotate180(a: array2<int>) returns (b: array2<int>)
    ensures fresh(b) && b.Length0 == a.Length0 && b.Length1 == a.Length1
    ensures forall y, x :: 0 <= y < a.Length0 && 0 <= x < a.Length1 ==> b[y, x] == Turned(a, y, x)
  {
    b := new int[a.Length0, a.Length1];
    forall y, x | 0 <= y < a.Length0 && 0 <= x < a.Length1 {
      b[y, x] := a[a.Length0 - 1 - y, a.Length1 - 1 - x];
    }
  }

  /** `img[rows, cols] = 255`: the rectangle turns white, every other pixel keeps its value. */
  method FillWhite(a: array2<int>, r: Rect)
    requires r.rows.hi <= a.Length0 && r.cols.hi <= a.Length1
    modifies a
    ensures forall y, x :: 0 <= y < a.Length0 && 0 <= x < a.Length1 ==>
      a[y, x] == if r.Has(y, x) then White else old(a[y, x])
  {
    forall y, x | 0 <= y < a.Length0 && 0 <= x < a.Length1 && r.Has(y, x) {
      a[y, x] := White;
    }
  }

  /** `img[rows, cols]` as a new image whose pixel `(i, j)` is `(rows.lo + i, cols.lo + j)`. */
  method Crop(a: array2<int>, r: Rect) returns (c: array2<int>)
    requires r.rows.lo <= r.rows.hi <= a.Length0 && r.cols.lo <= r.cols.hi <= a.Length1
    ensures fresh(c) && c.Length0 == r.rows.Length() && c.Length1 == r.cols.Length()
    ensures forall i, j :: 0 <= i < c.Length0 && 0 <= j < c.Length1 ==> c[i, j] == a[r.rows.lo + i, r.cols.lo + j]
  {
    c := new int[r.rows.hi - r.rows.lo, r.cols.hi - r.cols.lo];
    forall i, j | 0 <= i < c.Length0 && 0 <= j < c.Length1 {
      c[i, j] := a[r.rows.lo + i, r.cols.lo + j];
    }
  }
}
