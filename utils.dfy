/** Unit conversion and rectangle geometry shared by the backend. */
module Utils {
  import opened Numeric
  import opened Models

  /** 1 pt = 0.3528 mm, and the inverse factor is defined from it. */
  const MmPerPt: real := 0.3528
  const PtPerMm: real := 1.0 / MmPerPt
  const MmPerInch: real := 25.4
  const InchPerMm: real := 1.0 / MmPerInch

  function PtToMm(pt: real): (mm: real)
    ensures pt >= 0.0 <==> mm >= 0.0
  {
    pt * MmPerPt
  }

  function MmToPt(mm: real): (pt: real)
    ensures mm >= 0.0 <==> pt >= 0.0
  {
    mm * PtPerMm
  }

  function InchToMm(inch: real): real { inch * MmPerInch }

  function MmToInch(mm: real): real { mm * InchPerMm }

  /** Because the factors are exact reciprocals, the conversions undo each other. */
  lemma MmPtRoundTrip(v: real)
    ensures PtToMm(MmToPt(v)) == v
    ensures MmToPt(PtToMm(v)) == v
  {
    assert MmPerPt * PtPerMm == 1.0;
  }

  lemma MmInchRoundTrip(v: real)
    ensures InchToMm(MmToInch(v)) == v
    ensures MmToInch(InchToMm(v)) == v
  {
    assert MmPerInch * InchPerMm == 1.0;
  }

  /** A PDF box `[x0, y0, x1, y1]` in points; either corner may come first. */
  datatype PdfBox = PdfBox(x0: real, y0: real, x1: real, y1: real)

  /** Normalises a PDF box to a millimetre rectangle: the lower-left corner is the
      smaller coordinate on each axis and the size is the absolute extent. */
  function PdfRectToMm(b: PdfBox): (r: Rectangle)
    ensures r.width >= 0.0 && r.height >= 0.0
    ensures r.LeftEdge() == PtToMm(Min(b.x0, b.x1)) && r.RightEdge() == PtToMm(Max(b.x0, b.x1))
    ensures r.BottomEdge() == PtToMm(Min(b.y0, b.y1)) && r.TopEdge() == PtToMm(Max(b.y0, b.y1))
  {
    Rectangle(PtToMm(Min(b.x0, b.x1)), PtToMm(Min(b.y0, b.y1)),
              PtToMm(Abs(b.x1 - b.x0)), PtToMm(Abs(b.y1 - b.y0)))
  }

  /** The normalised rectangle does not depend on which corner the box lists first. */
  lemma PdfRectCornerOrderIrrelevant(b: PdfBox)
    ensures PdfRectToMm(PdfBox(b.x1, b.y1, b.x0, b.y0)) == PdfRectToMm(b)
    ensures PdfRectToMm(PdfBox(b.x1, b.y0, b.x0, b.y1)) == PdfRectToMm(b)
    ensures PdfRectToMm(PdfBox(b.x0, b.y1, b.x1, b.y0)) == PdfRectToMm(b)
  {
  }

  /** A millimetre rectangle as a PDF box `[x0, y0, x1, y1]` in points. */
  function MmRectToPtArray(r: Rectangle): (b: PdfBox)
    ensures PtToMm(b.x0) == r.LeftEdge() && PtToMm(b.x1) == r.RightEdge()
    ensures PtToMm(b.y0) == r.BottomEdge() && PtToMm(b.y1) == r.TopEdge()
  {
    MmPtRoundTrip(r.x);
    MmPtRoundTrip(r.y);
    MmPtRoundTrip(r.x + r.width);
    MmPtRoundTrip(r.y + r.height);
    PdfBox(MmToPt(r.x), MmToPt(r.y), MmToPt(r.x + r.width), MmToPt(r.y + r.height))
  }

  /** Converting a rectangle of non-negative size to a PDF box and back gives it back. */
  lemma PtArrayRoundTrip(r: Rectangle)
    requires r.width >= 0.0 && r.height >= 0.0
    ensures PdfRectToMm(MmRectToPtArray(r)) == r
  {
    var b := MmRectToPtArray(r);
    assert b.x0 <= b.x1 && b.y0 <= b.y1 by {
      assert b.x1 - b.x0 == MmToPt(r.width);
      assert b.y1 - b.y0 == MmToPt(r.height);
    }
    MmPtRoundTrip(r.x);
    MmPtRoundTrip(r.y);
    MmPtRoundTrip(r.width);
    MmPtRoundTrip(r.height);
    assert Abs(b.x1 - b.x0) == MmToPt(r.width);
    assert Abs(b.y1 - b.y0) == MmToPt(r.height);
  }

  /** `outer` covers `inner`, boundaries included. */
  predicate Contains(outer: Rectangle, inner: Rectangle)
  {
    outer.LeftEdge() <= inner.LeftEdge() && inner.RightEdge() <= outer.RightEdge() &&
    outer.BottomEdge() <= inner.BottomEdge() && inner.TopEdge() <= outer.TopEdge()
  }

  /** Grows a rectangle by the given amount on each side. */
  function ExpandRect(rect: Rectangle, top: real, bottom: real, left: real, right: real): (r: Rectangle)
    ensures r.LeftEdge() == rect.LeftEdge() - left && r.RightEdge() == rect.RightEdge() + right
    ensures r.BottomEdge() == rect.BottomEdge() - bottom && r.TopEdge() == rect.TopEdge() + top
    ensures top >= 0.0 && bottom >= 0.0 && left >= 0.0 && right >= 0.0 ==> Contains(r, rect)
  {
    Rectangle(rect.x - left, rect.y - bottom, rect.width + left + right, rect.height + top + bottom)
  }

  /** The two interiors intersect: rectangles that only touch along an edge do not overlap. */
  predicate RectsOverlap(a: Rectangle, b: Rectangle)
  {
    if a.RightEdge() <= b.LeftEdge() || b.RightEdge() <= a.LeftEdge() then false
    else if a.TopEdge() <= b.BottomEdge() || b.TopEdge() <= a.BottomEdge() then false
    else true
  }

  /** The point lies strictly inside the rectangle. */
  predicate StrictlyInside(px: real, py: real, r: Rectangle)
  {
    r.LeftEdge() < px < r.RightEdge() && r.BottomEdge() < py < r.TopEdge()
  }

  /** For rectangles of positive size, overlap means exactly that some point is
      strictly inside both. */
  lemma OverlapIffCommonInteriorPoint(a: Rectangle, b: Rectangle)
    requires a.width > 0.0 && a.height > 0.0 && b.width > 0.0 && b.height > 0.0
    ensures RectsOverlap(a, b) <==> exists px, py :: StrictlyInside(px, py, a) && StrictlyInside(px, py, b)
  {
    if RectsOverlap(a, b) {
      var lo, hi := Max(a.LeftEdge(), b.LeftEdge()), Min(a.RightEdge(), b.RightEdge());
      var bo, to := Max(a.BottomEdge(), b.BottomEdge()), Min(a.TopEdge(), b.TopEdge());
      assert lo < hi && bo < to;
      var px, py := (lo + hi) / 2.0, (bo + to) / 2.0;
      assert lo < px < hi && bo < py < to;
      assert StrictlyInside(px, py, a) && StrictlyInside(px, py, b);
    }
  }

  lemma RectsOverlapSymmetric(a: Rectangle, b: Rectangle)
    ensures RectsOverlap(a, b) == RectsOverlap(b, a)
  {
  }

  /** Rectangles that share a vertical or horizontal edge line do not overlap. */
  lemma SharedEdgeIsNoOverlap(a: Rectangle, b: Rectangle)
    requires a.RightEdge() == b.LeftEdge() || a.TopEdge() == b.BottomEdge()
    ensures !RectsOverlap(a, b) && !RectsOverlap(b, a)
  {
  }

  /** Inclusive on all four boundaries. */
  predicate PointInRect(px: real, py: real, rect: Rectangle)
  {
    rect.x <= px <= rect.x + rect.width && rect.y <= py <= rect.y + rect.height
  }

  /** Each corner of a rectangle of non-negative size counts as inside it. */
  lemma CornersAreInRect(r: Rectangle)
    requires r.width >= 0.0 && r.height >= 0.0
    ensures PointInRect(r.LeftEdge(), r.BottomEdge(), r) && PointInRect(r.RightEdge(), r.BottomEdge(), r)
    ensures PointInRect(r.LeftEdge(), r.TopEdge(), r) && PointInRect(r.RightEdge(), r.TopEdge(), r)
  {
  }

  /** A segment meets a rectangle when its midpoint, or both its end points, lie in it. */
  predicate SegmentHitsRect(x1: real, y1: real, x2: real, y2: real, r: Rectangle)
  {
    PointInRect((x1 + x2) / 2.0, (y1 + y2) / 2.0, r) || (PointInRect(x1, y1, r) && PointInRect(x2, y2, r))
  }

  /** The scan of `line_overlaps_any_rect`, from position `i` on, skipping `excludeIdx`
      and stopping at the first rectangle the segment meets. */
  function ScanRects(x1: real, y1: real, x2: real, y2: real, rects: seq<Rectangle>, excludeIdx: int, i: nat): bool
    decreases |rects| - i
  {
    if i >= |rects| then false
    else if i == excludeIdx then ScanRects(x1, y1, x2, y2, rects, excludeIdx, i + 1)
    else if PointInRect((x1 + x2) / 2.0, (y1 + y2) / 2.0, rects[i]) then true
    else if PointInRect(x1, y1, rects[i]) && PointInRect(x2, y2, rects[i]) then true
    else ScanRects(x1, y1, x2, y2, rects, excludeIdx, i + 1)
  }

  lemma {:induction false} ScanRectsFindsHit(x1: real, y1: real, x2: real, y2: real, rects: seq<Rectangle>, excludeIdx: int, i: nat)
    ensures ScanRects(x1, y1, x2, y2, rects, excludeIdx, i) <==>
            exists j :: i <= j < |rects| && j != excludeIdx && SegmentHitsRect(x1, y1, x2, y2, rects[j])
    decreases |rects| - i
  {
    if i < |rects| {
      ScanRectsFindsHit(x1, y1, x2, y2, rects, excludeIdx, i + 1);
      if ScanRects(x1, y1, x2, y2, rects, excludeIdx, i + 1) {
        var j :| i + 1 <= j < |rects| && j != excludeIdx && SegmentHitsRect(x1, y1, x2, y2, rects[j]);
      }
    }
  }

  /** Whether the segment meets any rectangle other than `rects[excludeIdx]`. */
  function LineOverlapsAnyRect(x1: real, y1: real, x2: real, y2: real, rects: seq<Rectangle>, excludeIdx: int): (hit: bool)
    ensures hit <==> exists j :: 0 <= j < |rects| && j != excludeIdx && SegmentHitsRect(x1, y1, x2, y2, rects[j])
  {
    ScanRectsFindsHit(x1, y1, x2, y2, rects, excludeIdx, 0);
    ScanRects(x1, y1, x2, y2, rects, excludeIdx, 0)
  }

  /** No rectangles, no overlap; and whatever `rects[excludeIdx]` is does not matter. */
  lemma LineOverlapIgnoresExcluded(x1: real, y1: real, x2: real, y2: real, rects: seq<Rectangle>, excludeIdx: nat, other: Rectangle)
    requires excludeIdx < |rects|
    ensures !LineOverlapsAnyRect(x1, y1, x2, y2, [], excludeIdx)
    ensures LineOverlapsAnyRect(x1, y1, x2, y2, rects[excludeIdx := other], excludeIdx) ==
            LineOverlapsAnyRect(x1, y1, x2, y2, rects, excludeIdx)
  {
    var rects' := rects[excludeIdx := other];
    if LineOverlapsAnyRect(x1, y1, x2, y2, rects, excludeIdx) {
      var j :| 0 <= j < |rects| && j != excludeIdx && SegmentHitsRect(x1, y1, x2, y2, rects[j]);
      assert rects'[j] == rects[j];
    }
    if LineOverlapsAnyRect(x1, y1, x2, y2, rects', excludeIdx) {
      var j :| 0 <= j < |rects'| && j != excludeIdx && SegmentHitsRect(x1, y1, x2, y2, rects'[j]);
      assert rects'[j] == rects[j];
    }
  }

  /** A midpoint inside any rectangle other than the excluded one is an overlap. */
  lemma MidpointInOtherRectOverlaps(x1: real, y1: real, x2: real, y2: real, rects: seq<Rectangle>, excludeIdx: int, j: nat)
    requires j < |rects| && j != excludeIdx
    requires PointInRect((x1 + x2) / 2.0, (y1 + y2) / 2.0, rects[j])
    ensures LineOverlapsAnyRect(x1, y1, x2, y2, rects, excludeIdx)
  {
  }
}
