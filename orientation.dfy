/**
 * Deciding whether a QR code is upside down from the centres of its finder
 * patterns: two rules, the largest-gap rule of the generic PDF pipeline and
 * the three-point rule of the barcode helpers.
 */
module Orientation {
  import opened Geometry

  // ---------------------------------------------------------------------------
  // Sorting the y coordinates (`sorted(...)`)
  // ---------------------------------------------------------------------------

  predicate Sorted(s: seq<int>) {
    forall i, j :: 0 <= i < j < |s| ==> s[i] <= s[j]
  }

  function Ys(centres: seq<Point>): (ys: seq<int>)
    ensures |ys| == |centres|
    ensures forall k :: 0 <= k < |centres| ==> ys[k] == centres[k].y
  {
    seq(|centres|, k requires 0 <= k < |centres| => centres[k].y)
  }

  function Insert(x: int, s: seq<int>): (r: seq<int>)
    requires Sorted(s)
    ensures Sorted(r) && multiset(r) == multiset(s) + multiset{x}
    ensures |r| == |s| + 1
    decreases |s|
  {
    if s == [] || x <= s[0] then
      ConsSorted(x, s);
      [x] + s
    else
      var rest := Insert(x, s[1..]);
      InsertBehind(x, s, rest);
      [s[0]] + rest
  }

  lemma ConsSorted(h: int, s: seq<int>)
    requires Sorted(s) && (s == [] || h <= s[0])
    ensures Sorted([h] + s)
  {
  }

  /** Inserting behind the head: the head stays first and the multiset grows by `x`. */
  lemma InsertBehind(x: int, s: seq<int>, rest: seq<int>)
    requires Sorted(s) && s != [] && s[0] < x
    requires Sorted(rest) && multiset(rest) == multiset(s[1..]) + multiset{x}
    ensures Sorted([s[0]] + rest) && multiset([s[0]] + rest) == multiset(s) + multiset{x}
  {
    forall k | 0 <= k < |rest| ensures s[0] <= rest[k] {
      assert rest[k] in multiset(rest);
      if rest[k] != x {
        assert rest[k] in s[1..];
      }
    }
    assert s == [s[0]] + s[1..];
  }

  /** `sorted(xs)`: ascending, with the same elements. */
  function SortAsc(xs: seq<int>): (r: seq<int>)
    ensures Sorted(r) && multiset(r) == multiset(xs) && |r| == |xs|
    ensures forall k :: 0 <= k < |r| ==> r[k] in xs
    decreases |xs|
  {
    if xs == [] then []
    else
      assert xs == [xs[0]] + xs[1..];
      var rest := SortAsc(xs[1..]);
      var r := Insert(xs[0], rest);
      assert forall k :: 0 <= k < |r| ==> r[k] in multiset(r);
      r
  }

  lemma MinOfSorted(s: seq<int>, v: int)
    requires Sorted(s) && v in multiset(s)
    ensures s[0] <= v
  {
    assert v in s;
  }

  /** There is only one sorted arrangement of a multiset. */
  lemma {:induction false} SortedUnique(a: seq<int>, b: seq<int>)
    requires Sorted(a) && Sorted(b) && multiset(a) == multiset(b)
    ensures a == b
    decreases |a|
  {
    assert |a| == |multiset(a)| == |multiset(b)| == |b|;
    if |a| > 0 {
      SameHead(a, b);
      DropHead(a);
      DropHead(b);
      SortedUnique(a[1..], b[1..]);
      assert a == [a[0]] + a[1..] && b == [b[0]] + b[1..];
    }
  }

  /** Two sorted arrangements of one non-empty multiset start with its least element. */
  lemma SameHead(a: seq<int>, b: seq<int>)
    requires Sorted(a) && Sorted(b) && multiset(a) == multiset(b) && |a| > 0 && |b| > 0
    ensures a[0] == b[0]
  {
    assert a[0] in multiset(b) && b[0] in multiset(a) by {
      assert a[0] in a && b[0] in b;
    }
    MinOfSorted(a, b[0]);
    MinOfSorted(b, a[0]);
  }

  lemma DropHead(a: seq<int>)
    requires |a| > 0
    ensures multiset(a[1..]) == multiset(a) - multiset{a[0]}
  {
    assert a == [a[0]] + a[1..];
    assert multiset(a) == multiset{a[0]} + multiset(a[1..]);
  }

  // ---------------------------------------------------------------------------
  // pdf_processor.determine_orientation: the first largest gap
  // ---------------------------------------------------------------------------

  function Gap(ys: seq<int>, i: nat): int
    requires i + 1 < |ys|
  {
    ys[i + 1] - ys[i]
  }

  /** `(split_index, max_gap)` after the loop has looked at gaps `0 .. i-1`. */
  function ScanSplit(ys: seq<int>, i: nat): (p: (nat, int))
    requires i < |ys|
    ensures p.0 < |ys| - 1 || p.0 == 0
    decreases i
  {
    if i == 0 then (0, 0)
    else
      var p := ScanSplit(ys, i - 1);
      var gap := Gap(ys, i - 1);
      if gap > p.1 then (i - 1, gap) else p
  }

  /** `split` is the first index whose gap is largest. */
  predicate IsFirstLargestGap(ys: seq<int>, split: nat) {
    split + 1 < |ys|
    && (forall k :: 0 <= k < |ys| - 1 ==> Gap(ys, k) <= Gap(ys, split))
    && (forall k :: 0 <= k < split ==> Gap(ys, k) < Gap(ys, split))
  }

  lemma {:induction false} ScanInvariant(ys: seq<int>, i: nat)
    requires 1 <= i < |ys| && Sorted(ys)
    ensures var (s, m) := ScanSplit(ys, i);
      s < i && m == Gap(ys, s)
      && (forall k :: 0 <= k < i ==> Gap(ys, k) <= m)
      && (forall k :: 0 <= k < s ==> Gap(ys, k) < m)
    decreases i
  {
    if i > 1 {
      ScanInvariant(ys, i - 1);
    }
  }

  /** The split the loop settles on is the first largest gap between sorted values. */
  lemma FirstLargestGap(ys: seq<int>)
    requires |ys| >= 2 && Sorted(ys)
    ensures IsFirstLargestGap(ys, ScanSplit(ys, |ys| - 1).0)
  {
    ScanInvariant(ys, |ys| - 1);
  }

  /** 0 when the group above the split is the larger one, 180 otherwise; 0 below three centres. */
  function LargestGapRule(centres: seq<Point>): int {
    if |centres| < 3 then 0 else SplitAngle(SortAsc(Ys(centres)))
  }

  function SplitAngle(ys: seq<int>): int
    requires |ys| >= 1
  {
    var split := ScanSplit(ys, |ys| - 1).0;
    var top := split + 1;
    var bottom := |ys| - (split + 1);
    if top > bottom then 0 else 180
  }

  /** The loop of `determine_orientation` over consecutive gaps. */
  method DetermineOrientation(centres: seq<Point>) returns (angle: int)
    ensures angle == LargestGapRule(centres)
  {
    if |centres| < 3 {
      return 0;
    }
    var ys := SortAsc(Ys(centres));
    var split := ScanGaps(ys);
    var top := split + 1;
    var bottom := |ys| - (split + 1);
    angle := if top > bottom then 0 else 180;
  }

  /** The loop itself: the index of the first largest gap between neighbours. */
  method ScanGaps(ys: seq<int>) returns (split: nat)
    requires |ys| >= 1
    ensures split == ScanSplit(ys, |ys| - 1).0
  {
    var maxGap := 0;
    split := 0;
    var i := 0;
    while i < |ys| - 1
      invariant 0 <= i <= |ys| - 1
      invariant (split, maxGap) == ScanSplit(ys, i)
    {
      var gap := ys[i + 1] - ys[i];
      if gap > maxGap {
        maxGap := gap;
        split := i;
      }
      i := i + 1;
    }
  }

  /** With at least three centres the rule says 0 exactly when the first largest gap leaves more points above it. */
  lemma LargestGapRuleMeaning(centres: seq<Point>, split: nat)
    requires |centres| >= 3
    requires IsFirstLargestGap(SortAsc(Ys(centres)), split)
    ensures LargestGapRule(centres) == 0 <==> 2 * (split + 1) > |centres|
  {
    FirstLargestGap(SortAsc(Ys(centres)));
  }

  /** Sorting an ascending sequence leaves it alone. */
  lemma SortAscOfSorted(xs: seq<int>)
    requires Sorted(xs)
    ensures SortAsc(xs) == xs
  {
    SortedUnique(SortAsc(xs), xs);
  }

  lemma LargestGapExampleUpright()
    ensures LargestGapRule([Point(0, 10), Point(5, 12), Point(9, 100)]) == 0
  {
    var c := [Point(0, 10), Point(5, 12), Point(9, 100)];
    assert Ys(c) == [10, 12, 100];
    SortAscOfSorted([10, 12, 100]);
    SplitAngleExamples();
  }

  lemma LargestGapExampleTurned()
    ensures LargestGapRule([Point(0, 10), Point(5, 98), Point(9, 100)]) == 180
  {
    var c := [Point(0, 10), Point(5, 98), Point(9, 100)];
    assert Ys(c) == [10, 98, 100];
    SortAscOfSorted([10, 98, 100]);
    SplitAngleExamples();
  }

  lemma SplitAngleExamples()
    ensures SplitAngle([10, 12, 100]) == 0 && SplitAngle([10, 98, 100]) == 180
  {
    assert ScanSplit([10, 12, 100], 2) == (1, 88);
    assert ScanSplit([10, 98, 100], 2) == (0, 88);
  }

  // ---------------------------------------------------------------------------
  // barcode.determine_orientation: the three smallest y values
  // ---------------------------------------------------------------------------

  function Abs(v: int): int { if v < 0 then -v else v }

  /** 0 when the first two sorted y values are closer than the second and third, 180 otherwise (ties included). */
  function ThreePointRule(centres: seq<Point>): int {
    if |centres| < 3 then 0 else PairAngle(SortAsc(Ys(centres)))
  }

  function PairAngle(ys: seq<int>): int
    requires |ys| >= 3
  {
    if Abs(ys[1] - ys[0]) < Abs(ys[2] - ys[1]) then 0 else 180
  }

  /** On exactly three centres both rules agree. */
  lemma RulesAgreeOnThree(centres: seq<Point>)
    requires |centres| == 3
    ensures LargestGapRule(centres) == ThreePointRule(centres)
  {
    var ys := SortAsc(Ys(centres));
    assert ys[0] <= ys[1] <= ys[2];
  }

  /** Equal gaps between three centres count as upside down. */
  lemma ThreePointTie(centres: seq<Point>)
    requires |centres| == 3
    requires var ys := SortAsc(Ys(centres)); ys[1] - ys[0] == ys[2] - ys[1]
    ensures ThreePointRule(centres) == 180
  {}

  lemma InsertLargest(s: seq<int>, v: int)
    requires Sorted(s) && forall k :: 0 <= k < |s| ==> s[k] <= v
    ensures Sorted(s + [v])
  {}

  lemma SortAppendLargest(centres: seq<Point>, p: Point)
    requires forall k :: 0 <= k < |centres| ==> centres[k].y <= p.y
    ensures SortAsc(Ys(centres + [p])) == SortAsc(Ys(centres)) + [p.y]
  {
    var ys := SortAsc(Ys(centres));
    assert forall k :: 0 <= k < |ys| ==> ys[k] <= p.y;
    InsertLargest(ys, p.y);
    var zs := Ys(centres + [p]);
    assert zs == Ys(centres) + [p.y];
    assert multiset(zs) == multiset(ys + [p.y]);
    SortedUnique(SortAsc(zs), ys + [p.y]);
  }

  /** A further centre lower on the page than all others does not change the three-point rule. */
  lemma ThreePointIgnoresLower(centres: seq<Point>, p: Point)
    requires |centres| >= 3
    requires forall k :: 0 <= k < |centres| ==> centres[k].y <= p.y
    ensures ThreePointRule(centres + [p]) == ThreePointRule(centres)
  {
    SortAppendLargest(centres, p);
    var ys := SortAsc(Ys(centres));
    assert PairAngle(ys + [p.y]) == PairAngle(ys);
  }

  lemma FourSplit(ys: seq<int>)
    requires ys == [0, 1, 2, 100]
    ensures Sorted(ys) && SplitAngle(ys) == 0 && PairAngle(ys) == 180
  {
    assert ScanSplit(ys, 1) == (0, 1);
    assert ScanSplit(ys, 2) == (0, 1);
    assert ScanSplit(ys, 3) == (2, 98);
  }

  /** On four centres the rules can disagree: y values 0, 1, 2, 100. */
  lemma RulesDifferOnFour(c: seq<Point>)
    requires Ys(c) == [0, 1, 2, 100]
    ensures LargestGapRule(c) == 0 && ThreePointRule(c) == 180
  {
    var ys := Ys(c);
    FourSplit(ys);
    SortAscOfSorted(ys);
  }
}
