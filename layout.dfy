/**
 * The layout detector's output as the page classifiers read it: a list of
 * labelled boxes, from which they take the first box of a label, or ask
 * whether some box carries a label.
 */
module Layout {
  import opened Wrappers
  import opened Geometry

  datatype Label =
    | DocTitle | FigureTitle | Footer | ParagraphTitle | Header | HeaderImage
    | Table | ImageRegion | OtherLabel

  datatype Detection = Detection(kind: Label, box: RealBox)

  predicate HasLabel(ds: seq<Detection>, l: Label) {
    exists k :: 0 <= k < |ds| && ds[k].kind == l
  }

  /** `ds[k]` is the first detection labelled `l`. */
  predicate IsFirst(ds: seq<Detection>, l: Label, k: int) {
    0 <= k < |ds| && ds[k].kind == l && forall j :: 0 <= j < k ==> ds[j].kind != l
  }

  /** `next((item for item in results if item["label"] == l), None)`. */
  function FirstWith(ds: seq<Detection>, l: Label): (r: Option<RealBox>)
    ensures r.None? <==> !HasLabel(ds, l)
    ensures r.Some? ==> exists k :: IsFirst(ds, l, k) && ds[k].box == r.value
  {
    if |ds| == 0 then None
    else if ds[0].kind == l then assert IsFirst(ds, l, 0); Some(ds[0].box)
    else
      var r := FirstWith(ds[1..], l);
      if r.Some? then
        var k :| IsFirst(ds[1..], l, k) && ds[1..][k].box == r.value;
        assert IsFirst(ds, l, k + 1);
        r
      else
        assert forall k :: 1 <= k < |ds| ==> ds[k] == ds[1..][k - 1];
        r
  }

  /** `any(item["label"] == "table" ...)`. */
  predicate HasTable(ds: seq<Detection>) {
    HasLabel(ds, Table)
  }

  /** `any(item["label"] in ("header", "header_image") ...)`. */
  predicate HasHeader(ds: seq<Detection>) {
    HasLabel(ds, Header) || HasLabel(ds, HeaderImage)
  }

  /** The boxes labelled `image`, in detection order. */
  function ImageBoxes(ds: seq<Detection>): (r: seq<RealBox>)
    ensures |r| <= |ds|
    ensures forall b :: b in r <==> Detection(ImageRegion, b) in ds
  {
    if |ds| == 0 then []
    else
      var rest := ImageBoxes(ds[1..]);
      assert forall d :: d in ds <==> d == ds[0] || d in ds[1..];
      if ds[0].kind == ImageRegion then [ds[0].box] + rest else rest
  }
}
