/** The analysis of an uploaded PDF: each page's boxes in millimetres, the bleed
    the boxes show, whether the page seems to carry printer's marks already, and
    the warnings about missing trim boxes and mixed page sizes. A page is given by
    the boxes the PDF declares for it (after inheritance) and by what the scan of
    its content stream found. */
module PdfAnalyzer {
  import opened Wrappers
  import opened Numeric
  import opened Models
  import opened Utils

  /** One page of the source: its boxes in points as `_extract_box` returns them,
      and `cornerLines`, the number of thin, short, axis-aligned strokes near a
      trim corner that the content-stream scan counted (None when the page has no
      readable content stream). `trimBox` is the page's own /TrimBox entry or,
      without one, the trim box the PDF library resolves for the page;
      `ownTrimBox` is the page's own /TrimBox entry alone, which is all that
      sheet assembly reads. */
  datatype RawPage = RawPage(
    mediaBox: Option<PdfBox>,
    trimBox: Option<PdfBox>,
    ownTrimBox: Option<PdfBox>,
    bleedBox: Option<PdfBox>,
    artBox: Option<PdfBox>,
    cornerLines: Option<nat>)

  /** `_extract_box` returns a box the page itself declares before it looks any
      further. */
  predicate BoxesRead(raw: RawPage)
  {
    raw.ownTrimBox.Some? ==> raw.trimBox == raw.ownTrimBox
  }

  datatype AnalyzeError =
    | ZeroPages
    | NoMediaBox(pageNumber: nat)

  // ---------------------------------------------------------------- bleed

  /** The bleed the boxes of a page declare. With a bleed box, how far it sticks
      out past the trim on each side; with only a trim box, how far the media box
      does, where more than 10 mm is taken for a margin and not bleed; without a
      trim box, none. */
  function DetectBleed(media: Rectangle, trim: Option<Rectangle>, bleed: Option<Rectangle>): (d: DetectedBleed)
    ensures d.top >= 0.0 && d.bottom >= 0.0 && d.left >= 0.0 && d.right >= 0.0
    ensures trim.None? ==> d == NoDetectedBleed
  {
    if trim.Some? && bleed.Some? then
      var t, b := trim.value, bleed.value;
      DetectedBleed(Max(0.0, b.TopEdge() - t.TopEdge()), Max(0.0, t.BottomEdge() - b.BottomEdge()),
                    Max(0.0, t.LeftEdge() - b.LeftEdge()), Max(0.0, b.RightEdge() - t.RightEdge()))
    else if trim.Some? then
      var t := trim.value;
      DetectedBleed(AtMostTen(Max(0.0, media.TopEdge() - t.TopEdge())),
                    AtMostTen(Max(0.0, t.BottomEdge() - media.BottomEdge())),
                    AtMostTen(Max(0.0, t.LeftEdge() - media.LeftEdge())),
                    AtMostTen(Max(0.0, media.RightEdge() - t.RightEdge())))
    else NoDetectedBleed
  }

  /** A margin wider than 10 mm is not bleed. */
  function AtMostTen(raw: real): (v: real)
    ensures 0.0 <= raw ==> 0.0 <= v <= 10.0
    ensures raw <= 10.0 ==> v == raw
    ensures raw > 10.0 ==> v == 0.0
  {
    if raw <= 10.0 then raw else 0.0
  }

  /** A bleed box around the trim box is recovered from the detected bleed: the
      trim grown by it is the bleed box. */
  lemma BleedBoxRecovered(media: Rectangle, t: Rectangle, b: Rectangle)
    requires Contains(b, t)
    ensures var d := DetectBleed(media, Some(t), Some(b));
            ExpandRect(t, d.top, d.bottom, d.left, d.right) == b
  {
  }

  /** With only a trim box, a media box whose margins around the trim are at most
      10 mm is recovered the same way; a margin over 10 mm on a side gives no bleed
      on that side. */
  lemma MediaMarginsRecovered(media: Rectangle, t: Rectangle)
    requires Contains(media, t)
    ensures var d := DetectBleed(media, Some(t), None);
            (media.TopEdge() - t.TopEdge() <= 10.0 && t.BottomEdge() - media.BottomEdge() <= 10.0 &&
             t.LeftEdge() - media.LeftEdge() <= 10.0 && media.RightEdge() - t.RightEdge() <= 10.0) ==>
            ExpandRect(t, d.top, d.bottom, d.left, d.right) == media
    ensures var d := DetectBleed(media, Some(t), None);
            (media.TopEdge() - t.TopEdge() > 10.0 <==> d.top == 0.0 && media.TopEdge() != t.TopEdge()) &&
            (t.LeftEdge() - media.LeftEdge() > 10.0 <==> d.left == 0.0 && media.LeftEdge() != t.LeftEdge())
  {
  }

  /** With only a trim box, every detected bleed stays within 10 mm. */
  lemma TrimOnlyBleedBounded(media: Rectangle, t: Rectangle)
    ensures var d := DetectBleed(media, Some(t), None);
            d.top <= 10.0 && d.bottom <= 10.0 && d.left <= 10.0 && d.right <= 10.0
  {
  }

  // ---------------------------------------------------------------- existing marks

  /** The room between trim and media on each side. */
  function Margins(trim: Rectangle, media: Rectangle): (real, real, real, real)
  {
    (trim.LeftEdge() - media.LeftEdge(), media.RightEdge() - trim.RightEdge(),
     trim.BottomEdge() - media.BottomEdge(), media.TopEdge() - trim.TopEdge())
  }

  /** Trim and media agree to within 1 mm in both directions. */
  predicate NoRoomForMarks(trim: Rectangle, media: Rectangle)
  {
    Abs(trim.width - media.width) < 1.0 && Abs(trim.height - media.height) < 1.0
  }

  /** Some side has more than 5 mm between trim and media. */
  predicate SpaceOutside(trim: Rectangle, media: Rectangle)
  {
    var m := Margins(trim, media);
    m.0 > 5.0 || m.1 > 5.0 || m.2 > 5.0 || m.3 > 5.0
  }

  /** `_scan_for_crop_marks`: four or more corner strokes look like crop marks. */
  predicate ScanForCropMarks(cornerLines: nat)
  {
    cornerLines >= 4
  }

  /** `detect_existing_marks`: no marks without room for them; otherwise the
      content scan decides, or failing a content stream, a margin of more than
      8 mm on every side. */
  function DetectExistingMarks(trim: Rectangle, media: Rectangle, cornerLines: Option<nat>): (has: bool)
    ensures NoRoomForMarks(trim, media) ==> !has
    ensures !SpaceOutside(trim, media) ==> !has
    ensures has ==> SpaceOutside(trim, media)
  {
    if NoRoomForMarks(trim, media) then false
    else if !SpaceOutside(trim, media) then false
    else if cornerLines.Some? then ScanForCropMarks(cornerLines.value)
    else
      var m := Margins(trim, media);
      Min(Min(m.0, m.1), Min(m.2, m.3)) > 8.0
  }

  /** Once there is room for marks, a scanned page has marks exactly when the scan
      counted four corner strokes, and an unscanned page exactly when all four
      margins exceed 8 mm. */
  lemma DetectExistingMarksDecision(trim: Rectangle, media: Rectangle, cornerLines: Option<nat>)
    requires !NoRoomForMarks(trim, media) && SpaceOutside(trim, media)
    ensures cornerLines.Some? ==> (DetectExistingMarks(trim, media, cornerLines) <==> cornerLines.value >= 4)
    ensures cornerLines.None? ==>
              (DetectExistingMarks(trim, media, cornerLines) <==>
               var m := Margins(trim, media); m.0 > 8.0 && m.1 > 8.0 && m.2 > 8.0 && m.3 > 8.0)
  {
  }

  /** A page whose trim is its media box never has marks detected. */
  lemma MediaAsTrimHasNoMarks(media: Rectangle, cornerLines: Option<nat>)
    ensures !DetectExistingMarks(media, media, cornerLines)
  {
  }

  // ---------------------------------------------------------------- one page

  /** The trim rectangle the analysis settles on: the trim box, else the media box. */
  function PageTrim(raw: RawPage): Rectangle
    requires raw.mediaBox.Some?
  {
    if raw.trimBox.Some? then PdfRectToMm(raw.trimBox.value) else PdfRectToMm(raw.mediaBox.value)
  }

  function OptionalRect(b: Option<PdfBox>): (r: Option<Rectangle>)
    ensures r.Some? <==> b.Some?
    ensures b.Some? ==> r.value == PdfRectToMm(b.value)
  {
    if b.Some? then Some(PdfRectToMm(b.value)) else None
  }

  /** The geometry recorded for page `index`. */
  function PageGeometryOf(raw: RawPage, index: nat): (g: PageGeometry)
    requires raw.mediaBox.Some?
    ensures g.mediaBox == PdfRectToMm(raw.mediaBox.value) && g.pageIndex == index
    ensures g.trimBox == Some(PageTrim(raw))
    ensures g.bleedBox == OptionalRect(raw.bleedBox) && g.artBox == OptionalRect(raw.artBox)
    ensures raw.trimBox.None? ==> g.trimBox == Some(g.mediaBox) && g.detectedBleed == NoDetectedBleed && !g.hasExistingMarks
    ensures g.hasExistingMarks ==> raw.trimBox.Some?
  {
    var media := PdfRectToMm(raw.mediaBox.value);
    var trim := PageTrim(raw);
    MediaAsTrimHasNoMarks(media, raw.cornerLines);
    PageGeometry(media, Some(trim), OptionalRect(raw.bleedBox), OptionalRect(raw.artBox),
                 DetectBleed(media, OptionalRect(raw.trimBox), OptionalRect(raw.bleedBox)),
                 DetectExistingMarks(trim, media, raw.cornerLines), false, index)
  }

  /** The size against which pages are compared: the trim rounded to 0.1 mm by
      `round1`, which stands for Python's `round(v, 1)`. */
  function SizeKey(raw: RawPage, round1: real -> real): (real, real)
    requires raw.mediaBox.Some?
  {
    (round1(PageTrim(raw).width), round1(PageTrim(raw).height))
  }

  // ---------------------------------------------------------------- whole document

  /** The first page without a media box, or the page count when every page has
      one. */
  function FirstWithoutMedia(raws: seq<RawPage>): (k: nat)
    ensures k <= |raws|
    ensures k < |raws| ==> raws[k].mediaBox.None?
    ensures forall i :: 0 <= i < k ==> raws[i].mediaBox.Some?
  {
    if |raws| == 0 then 0
    else if raws[0].mediaBox.None? then 0
    else 1 + FirstWithoutMedia(raws[1..])
  }

  /** The warnings page `i` adds: one for a missing trim box, and after page 1 one
      for a size that differs from page 1's. */
  function PageWarnings(raws: seq<RawPage>, round1: real -> real, i: nat): seq<AnalysisWarning>
    requires i < |raws| && FirstWithoutMedia(raws) == |raws|
  {
    var noTrim := if raws[i].trimBox.None? then [NoTrimBox(i + 1)] else [];
    var key, first := SizeKey(raws[i], round1), SizeKey(raws[0], round1);
    var mixed := if i > 0 && key != first
                 then [MixedPageSize(i + 1, PageTrim(raws[i]).width, PageTrim(raws[i]).height, first.0, first.1)]
                 else [];
    noTrim + mixed
  }

  /** The warnings of the first `n` pages, in page order. */
  function Warnings(raws: seq<RawPage>, round1: real -> real, n: nat): seq<AnalysisWarning>
    requires n <= |raws| && FirstWithoutMedia(raws) == |raws|
  {
    if n == 0 then [] else Warnings(raws, round1, n - 1) + PageWarnings(raws, round1, n - 1)
  }

  /** What `analyze_pdf` returns for a document of the given pages. */
  function Analysis(raws: seq<RawPage>, round1: real -> real): Result<AnalysisResult, AnalyzeError>
  {
    if |raws| == 0 then Err(ZeroPages)
    else if FirstWithoutMedia(raws) < |raws| then Err(NoMediaBox(FirstWithoutMedia(raws) + 1))
    else Ok(AnalysisResult(|raws|, seq(|raws|, i requires 0 <= i < |raws| => PageGeometryOf(raws[i], i)),
                           Warnings(raws, round1, |raws|)))
  }

  /** `analyze_pdf`, page by page, keeping page 1's size to compare against. */
  method AnalyzePdf(raws: seq<RawPage>, round1: real -> real) returns (r: Result<AnalysisResult, AnalyzeError>)
    ensures r == Analysis(raws, round1)
  {
    if |raws| == 0 {
      return Err(ZeroPages);
    }
    var pages: seq<PageGeometry> := [];
    var warnings: seq<AnalysisWarning> := [];
    var firstPageSize: Option<(real, real)> := None;
    for i := 0 to |raws|
      invariant i <= FirstWithoutMedia(raws)
      invariant |pages| == i && GeometriesOf(raws, pages)
      invariant i == 0 <==> firstPageSize.None?
      invariant i > 0 ==> firstPageSize == Some(SizeKey(raws[0], round1))
      invariant FirstWithoutMedia(raws) == |raws| ==> warnings == Warnings(raws, round1, i)
    {
      var raw := raws[i];
      if raw.mediaBox.None? {
        return Err(NoMediaBox(i + 1));
      }
      var pageWarnings;
      pageWarnings, firstPageSize := PageStep(raws, round1, i, firstPageSize);
      warnings := warnings + pageWarnings;
      GeometriesExtend(raws, pages);
      pages := pages + [PageGeometryOf(raw, i)];
    }
    assert FirstWithoutMedia(raws) == |raws|;
    assert pages == seq(|raws|, i requires 0 <= i < |raws| => PageGeometryOf(raws[i], i));
    r := Ok(AnalysisResult(|pages|, pages, warnings));
  }

  /** `pages` are the geometries of the first `|pages|` pages, in order. */
  predicate GeometriesOf(raws: seq<RawPage>, pages: seq<PageGeometry>)
  {
    |pages| <= |raws| &&
    forall k :: 0 <= k < |pages| ==> raws[k].mediaBox.Some? && pages[k] == PageGeometryOf(raws[k], k)
  }

  lemma GeometriesExtend(raws: seq<RawPage>, pages: seq<PageGeometry>)
    requires GeometriesOf(raws, pages) && |pages| < |raws| && raws[|pages|].mediaBox.Some?
    ensures GeometriesOf(raws, pages + [PageGeometryOf(raws[|pages|], |pages|)])
  {
    var more := pages + [PageGeometryOf(raws[|pages|], |pages|)];
    forall k | 0 <= k < |more| ensures raws[k].mediaBox.Some? && more[k] == PageGeometryOf(raws[k], k) {
      if k < |pages| {
        assert more[k] == pages[k];
      }
    }
  }

  /** The warnings of one pass of `analyze_pdf`'s page loop, which also records
      page 1's rounded trim as the size to compare against. */
  method PageStep(raws: seq<RawPage>, round1: real -> real, i: nat, firstPageSize: Option<(real, real)>)
    returns (pageWarnings: seq<AnalysisWarning>, firstSize: Option<(real, real)>)
    requires i < |raws| && raws[i].mediaBox.Some? && raws[0].mediaBox.Some?
    requires i == 0 <==> firstPageSize.None?
    requires i > 0 ==> firstPageSize == Some(SizeKey(raws[0], round1))
    ensures firstSize == Some(SizeKey(raws[0], round1))
    ensures FirstWithoutMedia(raws) == |raws| ==> pageWarnings == PageWarnings(raws, round1, i)
  {
    var raw := raws[i];
    var trim := PageTrim(raw);
    pageWarnings := [];
    if raw.trimBox.None? {
      pageWarnings := [NoTrimBox(i + 1)];
    }
    var key := (round1(trim.width), round1(trim.height));
    firstSize := firstPageSize;
    if firstSize.None? {
      firstSize := Some(key);
    } else if key != firstSize.value {
      pageWarnings := pageWarnings + [MixedPageSize(i + 1, trim.width, trim.height, firstSize.value.0,
                                                    firstSize.value.1)];
    }
  }

  // ---------------------------------------------------------------- properties

  /** Analysis fails exactly for an empty document or a page without a media box,
      and names the first such page; a success has one geometry per page, in
      order. */
  lemma AnalysisErrors(raws: seq<RawPage>, round1: real -> real)
    ensures Analysis(raws, round1).Err? <==> |raws| == 0 || exists i :: 0 <= i < |raws| && raws[i].mediaBox.None?
    ensures Analysis(raws, round1).Err? && |raws| > 0 ==>
              var k := Analysis(raws, round1).error.pageNumber;
              1 <= k <= |raws| && raws[k - 1].mediaBox.None? &&
              forall i :: 0 <= i < k - 1 ==> raws[i].mediaBox.Some?
    ensures Analysis(raws, round1).Ok? ==>
              var a := Analysis(raws, round1).value;
              a.pageCount == |raws| == |a.pages| && forall i :: 0 <= i < |raws| ==> a.pages[i].pageIndex == i
  {
    if exists i :: 0 <= i < |raws| && raws[i].mediaBox.None? {
      var i :| 0 <= i < |raws| && raws[i].mediaBox.None?;
      assert FirstWithoutMedia(raws) <= i;
    }
  }

  /** The first `n` pages warn about a missing trim box exactly on the pages that
      lack one, and about their size exactly on the pages after page 1 whose
      rounded trim differs from page 1's. */
  lemma {:induction false} WarningsOfPrefix(raws: seq<RawPage>, round1: real -> real, n: nat, k: nat)
    requires n <= |raws| && FirstWithoutMedia(raws) == |raws|
    ensures NoTrimBox(k) in Warnings(raws, round1, n) <==> 1 <= k <= n && raws[k - 1].trimBox.None?
    ensures (exists w :: w in Warnings(raws, round1, n) && w.MixedPageSize? && w.pageNumber == k) <==>
              2 <= k <= n && SizeKey(raws[k - 1], round1) != SizeKey(raws[0], round1)
  {
    if n > 0 {
      WarningsOfPrefix(raws, round1, n - 1, k);
      var ws := Warnings(raws, round1, n);
      assert ws == Warnings(raws, round1, n - 1) + PageWarnings(raws, round1, n - 1);
    }
  }

  /** Page 1 never warns about its size, and every size warning compares against
      page 1's rounded trim. */
  lemma PageOneHasNoSizeWarning(raws: seq<RawPage>, round1: real -> real)
    requires Analysis(raws, round1).Ok?
    ensures forall w :: w in Analysis(raws, round1).value.warnings && w.MixedPageSize? ==> w.pageNumber >= 2
  {
    var ws := Analysis(raws, round1).value.warnings;
    forall w | w in ws && w.MixedPageSize? ensures w.pageNumber >= 2 {
      WarningsOfPrefix(raws, round1, |raws|, w.pageNumber);
    }
  }
}
