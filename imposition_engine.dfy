/** How many items fit on a press sheet, how many sheets a job needs, and which
    source page each grid slot of a sheet shows. */
module ImpositionEngine {
  import opened Wrappers
  import opened Numeric
  import opened Models

  // ---------------------------------------------------------------- sheet size

  /** The sheet size after the orientation swap: "landscape" puts the long side
      across, "portrait" puts it upright, and any other value keeps the sheet as
      given. */
  function OrientSheet(s: SheetConfig): (d: (real, real))
    ensures d == (s.sheetWidth, s.sheetHeight) || d == (s.sheetHeight, s.sheetWidth)
    ensures s.orientation == "landscape" ==> d.0 >= d.1
    ensures s.orientation == "portrait" ==> d.0 <= d.1
    ensures s.orientation != "landscape" && s.orientation != "portrait" ==> d == (s.sheetWidth, s.sheetHeight)
  {
    if s.orientation == "landscape" && s.sheetWidth < s.sheetHeight then (s.sheetHeight, s.sheetWidth)
    else if s.orientation == "portrait" && s.sheetWidth > s.sheetHeight then (s.sheetHeight, s.sheetWidth)
    else (s.sheetWidth, s.sheetHeight)
  }

  // ---------------------------------------------------------------- grid count

  /** `outer + k * trim` fits into `avail`. */
  predicate FitsTight(avail: real, outer: real, trim: real, k: nat)
  {
    outer + k as real * trim <= avail
  }

  /** Butted items along one axis (no gap): the largest count whose trims plus the
      two outer bleeds fit, or 0 when not even one does. */
  function TightFit(avail: real, outer: real, trim: real): (k: nat)
    requires trim > 0.0
    ensures k == 0 || FitsTight(avail, outer, trim, k)
    ensures !FitsTight(avail, outer, trim, k + 1)
  {
    var q := (avail - outer) / trim;
    QuotientFloorBracket(avail - outer, trim, q);
    if q < 0.0 then 0 else q.Floor
  }

  /** Spaced items along one axis: how many whole cells of size `cell` the
      available length holds. */
  function SpacedFit(avail: real, cell: real): (k: nat)
    requires avail > 0.0 && cell > 0.0
    ensures k as real * cell <= avail < (k + 1) as real * cell
  {
    var q := avail / cell;
    QuotientFloorBracket(avail, cell, q);
    assert TruncToInt(q) == q.Floor;
    TruncToInt(q)
  }

  /** One axis of the grid count, given a positive available length: butted trims
      sharing their interior edges when `gap` is zero, else cells of trim, both
      bleeds and the gap. A non-positive trim or cell size fits nothing. */
  function AxisCount(avail: real, outer: real, trim: real, gap: real): (n: nat)
    requires avail > 0.0
    ensures gap == 0.0 && trim > 0.0 ==>
              (n == 0 || FitsTight(avail, outer, trim, n)) && !FitsTight(avail, outer, trim, n + 1)
    ensures gap != 0.0 && trim + outer + gap > 0.0 ==>
              n as real * (trim + outer + gap) <= avail < (n + 1) as real * (trim + outer + gap)
    ensures (gap == 0.0 && trim <= 0.0) || (gap != 0.0 && trim + outer + gap <= 0.0) ==> n == 0
  {
    if gap == 0.0 then
      (if trim > 0.0 then TightFit(avail, outer, trim) else 0)
    else
      var cell := trim + outer + gap;
      if cell > 0.0 then SpacedFit(avail, cell) else 0
  }

  function AvailableWidth(sheetW: real, markMargin: real): real
  {
    sheetW - 2.0 * markMargin
  }

  /** The grip edge is taken from the height only. */
  function AvailableHeight(sheetH: real, markMargin: real, grip: real): real
  {
    sheetH - 2.0 * markMargin - grip
  }

  /** `(cols, rows)` that fit inside the mark margins and the grip edge; `(0, 0)`
      when no printable area is left. */
  function GridCount(sheetW: real, sheetH: real, markMargin: real, grip: real,
                     trimW: real, trimH: real, bleed: BleedConfig, gap: real): (nat, nat)
  {
    var availW := AvailableWidth(sheetW, markMargin);
    var availH := AvailableHeight(sheetH, markMargin, grip);
    if availW <= 0.0 || availH <= 0.0 then (0, 0)
    else (AxisCount(availW, bleed.left + bleed.right, trimW, gap),
          AxisCount(availH, bleed.top + bleed.bottom, trimH, gap))
  }

  /** The grid count with its fitting loops: when items are butted, the first
      estimate is at least 1 and is lowered until it really fits. */
  method CalcGridCount(sheetW: real, sheetH: real, markMargin: real, grip: real,
                       trimW: real, trimH: real, bleed: BleedConfig, gap: real)
    returns (cols: int, rows: int)
    ensures (cols, rows) == GridCount(sheetW, sheetH, markMargin, grip, trimW, trimH, bleed, gap)
  {
    var availW := sheetW - 2.0 * markMargin;
    var availH := sheetH - 2.0 * markMargin - grip;
    if availW <= 0.0 || availH <= 0.0 {
      return 0, 0;
    }
    if gap == 0.0 {
      cols := FitButted(availW, bleed.left + bleed.right, trimW);
      rows := FitButted(availH, bleed.top + bleed.bottom, trimH);
    } else {
      var cellW := trimW + bleed.left + bleed.right + gap;
      var cellH := trimH + bleed.top + bleed.bottom + gap;
      cols := if cellW > 0.0 then TruncToInt(availW / cellW) else 0;
      rows := if cellH > 0.0 then TruncToInt(availH / cellH) else 0;
      assert cellW > 0.0 ==> cols == SpacedFit(availW, cellW);
      assert cellH > 0.0 ==> rows == SpacedFit(availH, cellH);
    }
    cols, rows := MaxInt(cols, 0), MaxInt(rows, 0);
  }

  /** One butted axis: start from the truncated quotient, at least 1, and step
      down while the items overflow. */
  method FitButted(avail: real, outer: real, trim: real) returns (n: int)
    ensures trim > 0.0 ==> n == TightFit(avail, outer, trim)
    ensures trim <= 0.0 ==> n == 0
  {
    n := if trim > 0.0 then MaxInt(1, TruncToInt((avail - outer) / trim)) else 0;
    while n > 0 && outer + n as real * trim > avail
      invariant n >= 0
      invariant trim > 0.0 ==> n >= TightFit(avail, outer, trim)
      invariant trim <= 0.0 ==> n == 0
      decreases n
    {
      n := n - 1;
    }
    if trim > 0.0 && n > TightFit(avail, outer, trim) {
      MulMonoReal(TightFit(avail, outer, trim) + 1, n, trim);
    }
  }

  // ---------------------------------------------------------------- sheet count

  /** Pages one press sheet carries: one page per side in step and repeat (every
      cell shows the same page), one page per cell and side otherwise. */
  function SheetCapacity(mode: ImpositionMode, duplex: bool, nUp: nat): nat
  {
    var sides := if duplex then 2 else 1;
    if mode == StepAndRepeat then sides else nUp * sides
  }

  /** Sheets needed for the job: at least one, and exactly as many as it takes for
      the sheets' capacity to reach the page count. */
  function TotalSheets(mode: ImpositionMode, duplex: bool, pageCount: nat, nUp: nat): (t: nat)
    requires nUp >= 1
    ensures t >= 1
    ensures t * SheetCapacity(mode, duplex, nUp) >= pageCount
    ensures t == 1 || (t - 1) * SheetCapacity(mode, duplex, nUp) < pageCount
  {
    var pagesPerSheet := if duplex then nUp * 2 else nUp;
    if mode == StepAndRepeat then
      (if duplex then MaxInt(1, CeilDiv(pageCount, 2)) else MaxInt(1, pageCount))
    else MaxInt(1, CeilDiv(pageCount, pagesPerSheet))
  }

  /** A requested sheet number clamped into `[0, total)`. */
  function ClampSheet(n: int, total: nat): (s: nat)
    requires total >= 1
    ensures s < total
    ensures 0 <= n < total ==> s == n
    ensures n < 0 ==> s == 0
    ensures n >= total ==> s == total - 1
  {
    MaxInt(0, MinInt(n, total - 1))
  }

  // ---------------------------------------------------------------- grids

  /** Cells laid out row by row: cell `k` sits at row `k / cols`, column `k % cols`. */
  predicate RowMajor(g: seq<GridCell>, rows: nat, cols: nat)
  {
    cols >= 1 && |g| == rows * cols &&
    forall k :: 0 <= k < |g| ==> g[k].row == k / cols && g[k].col == k % cols
  }

  /** The index of row `r`, column `c` in a row-major grid. */
  function RowMajorSlot(r: nat, c: nat, cols: nat): nat
  {
    r * cols + c
  }

  lemma RowMajorIndex(k: nat, rows: nat, cols: nat)
    requires cols >= 1 && k < rows * cols
    ensures k / cols < rows && k == (k / cols) * cols + k % cols
  {
    if k / cols >= rows {
      MulMono(rows, k / cols, cols);
    }
  }

  /** A row-major grid stays inside its bounds, covers every position and never
      puts two cells on the same position. */
  lemma RowMajorIsAPlacement(g: seq<GridCell>, rows: nat, cols: nat)
    requires RowMajor(g, rows, cols)
    ensures forall k :: 0 <= k < |g| ==> 0 <= g[k].row < rows && 0 <= g[k].col < cols
    ensures forall i, j :: 0 <= i < j < |g| ==> g[i].row != g[j].row || g[i].col != g[j].col
    ensures forall r, c :: 0 <= r < rows && 0 <= c < cols ==>
              RowMajorSlot(r, c, cols) < |g| && g[RowMajorSlot(r, c, cols)].row == r &&
              g[RowMajorSlot(r, c, cols)].col == c
  {
    forall k | 0 <= k < |g|
      ensures 0 <= g[k].row < rows && 0 <= g[k].col < cols
    {
      RowMajorIndex(k, rows, cols);
    }
    forall i, j | 0 <= i < j < |g|
      ensures g[i].row != g[j].row || g[i].col != g[j].col
    {
      RowMajorIndex(i, rows, cols);
      RowMajorIndex(j, rows, cols);
    }
    forall r, c | 0 <= r < rows && 0 <= c < cols
      ensures RowMajorSlot(r, c, cols) < |g| && g[RowMajorSlot(r, c, cols)].row == r &&
              g[RowMajorSlot(r, c, cols)].col == c
    {
      RowMajorDivMod(r, c, cols);
      MulMono(r + 1, rows, cols);
    }
  }

  /** The page a sequential sheet starting at page `start` shows in slot `k`: the
      next source page while pages remain, an empty slot after the last. */
  function SequentialPage(start: nat, k: nat, pageCount: nat): Option<nat>
  {
    if start + k < pageCount then Some(start + k) else None
  }

  /** A row-major grid whose every cell shows `page`. */
  function UniformGrid(rows: nat, cols: nat, page: Option<nat>, rotation: int): (g: seq<GridCell>)
    requires cols >= 1
    ensures RowMajor(g, rows, cols)
    ensures forall k :: 0 <= k < |g| ==> g[k].pageIndex == page && g[k].rotation == rotation
  {
    seq(rows * cols, k requires 0 <= k < rows * cols => NewCell(k / cols, k % cols, page, rotation))
  }

  /** A row-major grid filled with consecutive pages from `start` on. */
  function SequentialGrid(rows: nat, cols: nat, start: nat, pageCount: nat, rotation: int): (g: seq<GridCell>)
    requires cols >= 1
    ensures RowMajor(g, rows, cols)
    ensures forall k :: 0 <= k < |g| ==> g[k].pageIndex == SequentialPage(start, k, pageCount) && g[k].rotation == rotation
  {
    seq(rows * cols, k requires 0 <= k < rows * cols =>
      NewCell(k / cols, k % cols, SequentialPage(start, k, pageCount), rotation))
  }

  /** The filled slots of a sequential grid come first, and they hold the pages in
      order without repetition. */
  lemma SequentialGridFillsAPrefix(rows: nat, cols: nat, start: nat, pageCount: nat, rotation: int)
    requires cols >= 1
    ensures var g := SequentialGrid(rows, cols, start, pageCount, rotation);
      (forall i, j :: 0 <= i < j < |g| && g[j].pageIndex.Some? ==> g[i].pageIndex.Some? && g[i].pageIndex.value < g[j].pageIndex.value) &&
      (forall k :: 0 <= k < |g| && g[k].pageIndex.Some? ==> start <= g[k].pageIndex.value < pageCount)
  {
  }

  /** Where the page cursor of a sequential fill stands after `n` cells. */
  function CursorAfter(start: nat, n: nat, pageCount: nat): nat
  {
    if start >= pageCount then start else MinInt(start + n, pageCount)
  }

  /** Builds a uniform grid row by row. */
  method FillUniform(rows: nat, cols: nat, page: Option<nat>, rotation: int) returns (grid: seq<GridCell>)
    requires cols >= 1
    ensures grid == UniformGrid(rows, cols, page, rotation)
  {
    grid := [];
    for r := 0 to rows
      invariant |grid| == r * cols
      invariant forall k :: 0 <= k < |grid| ==> grid[k] == NewCell(k / cols, k % cols, page, rotation)
    {
      for c := 0 to cols
        invariant |grid| == r * cols + c
        invariant forall k :: 0 <= k < |grid| ==> grid[k] == NewCell(k / cols, k % cols, page, rotation)
      {
        RowMajorDivMod(r, c, cols);
        grid := grid + [NewCell(r, c, page, rotation)];
      }
    }
  }

  /** Builds a sequential grid row by row with a page cursor that advances only
      while pages remain; returns the cursor where it stopped. */
  method FillSequential(rows: nat, cols: nat, start: nat, pageCount: nat, rotation: int)
    returns (grid: seq<GridCell>, cursor: nat)
    requires cols >= 1
    ensures grid == SequentialGrid(rows, cols, start, pageCount, rotation)
    ensures cursor == CursorAfter(start, rows * cols, pageCount)
  {
    grid := [];
    cursor := start;
    for r := 0 to rows
      invariant |grid| == r * cols
      invariant cursor == CursorAfter(start, |grid|, pageCount)
      invariant forall k :: 0 <= k < |grid| ==>
                  grid[k] == NewCell(k / cols, k % cols, SequentialPage(start, k, pageCount), rotation)
    {
      for c := 0 to cols
        invariant |grid| == r * cols + c
        invariant cursor == CursorAfter(start, |grid|, pageCount)
        invariant forall k :: 0 <= k < |grid| ==>
                    grid[k] == NewCell(k / cols, k % cols, SequentialPage(start, k, pageCount), rotation)
      {
        RowMajorDivMod(r, c, cols);
        if cursor < pageCount {
          grid := grid + [NewCell(r, c, Some(cursor), rotation)];
          cursor := cursor + 1;
        } else {
          grid := grid + [NewCell(r, c, None, rotation)];
        }
      }
    }
  }

  // ---------------------------------------------------------------- saddle stitch

  /** Pages of a saddle-stitched signature: the page count rounded up to a
      multiple of 4, which adds fewer than 4 blank pages. */
  function SaddleTotal(pageCount: nat): (t: nat)
    ensures t % 4 == 0 && pageCount <= t < pageCount + 4
  {
    CeilDiv(pageCount, 4) * 4
  }

  /** The page number in slot `slot` of sheet `i` of a `total`-page signature:
      slot 0 is front left, 1 front right, 2 back left, 3 back right. */
  function SaddleSlotPage(total: nat, i: nat, slot: nat): (p: nat)
    requires total % 4 == 0 && i < total / 4 && slot < 4
    ensures p < total
  {
    if slot == 0 then total - 2 * i - 1
    else if slot == 1 then 2 * i
    else if slot == 2 then 2 * i + 1
    else total - 2 * i - 2
  }

  /** The sheet and slot that carry page `p`: the first half of the signature
      runs up the inner slots, the second half down the outer ones. */
  function SaddleSlotOf(total: nat, p: nat): (r: (nat, nat))
    requires total % 4 == 0 && p < total
    ensures r.0 < total / 4 && r.1 < 4
    ensures SaddleSlotPage(total, r.0, r.1) == p
  {
    if p < total / 2 then
      (if p % 2 == 0 then (p / 2, 1) else (p / 2, 2))
    else
      var q := total - 1 - p;
      if q % 2 == 0 then (q / 2, 0) else (q / 2, 3)
  }

  /** Every slot of the signature holds a different page. */
  lemma SaddleSlotPageInjective(total: nat, i: nat, s: nat, j: nat, t: nat)
    requires total % 4 == 0 && i < total / 4 && s < 4 && j < total / 4 && t < 4
    requires SaddleSlotPage(total, i, s) == SaddleSlotPage(total, j, t)
    ensures i == j && s == t
  {
    SaddleSlotOfPage(total, i, s);
    SaddleSlotOfPage(total, j, t);
  }

  lemma SaddleSlotOfPage(total: nat, i: nat, s: nat)
    requires total % 4 == 0 && i < total / 4 && s < 4
    ensures SaddleSlotOf(total, SaddleSlotPage(total, i, s)) == (i, s)
  {
  }

  /** The two pages facing each other on a side add up to `total - 1`, and the
      back left page follows the front right one. */
  lemma SaddleSpreads(total: nat, i: nat)
    requires total % 4 == 0 && i < total / 4
    ensures SaddleSlotPage(total, i, 0) + SaddleSlotPage(total, i, 1) == total - 1
    ensures SaddleSlotPage(total, i, 2) + SaddleSlotPage(total, i, 3) == total - 1
    ensures SaddleSlotPage(total, i, 2) == SaddleSlotPage(total, i, 1) + 1
  {
  }

  /** One sheet of the booklet: `[left, right]` for each side. */
  datatype SaddleSheet = SaddleSheet(front: seq<Option<nat>>, back: seq<Option<nat>>)

  /** A page number past the last source page is a blank slot. */
  function Masked(p: nat, pageCount: nat): Option<nat>
  {
    if p < pageCount then Some(p) else None
  }

  function SaddleSheetAt(total: nat, pageCount: nat, i: nat): SaddleSheet
    requires total % 4 == 0 && i < total / 4
  {
    SaddleSheet([Masked(SaddleSlotPage(total, i, 0), pageCount), Masked(SaddleSlotPage(total, i, 1), pageCount)],
                [Masked(SaddleSlotPage(total, i, 2), pageCount), Masked(SaddleSlotPage(total, i, 3), pageCount)])
  }

  /** All sheets of the booklet, outermost first. */
  function SaddleSheets(pageCount: nat): (sheets: seq<SaddleSheet>)
    ensures |sheets| * 4 == SaddleTotal(pageCount)
    ensures forall i :: 0 <= i < |sheets| ==> |sheets[i].front| == 2 && |sheets[i].back| == 2
  {
    var total := SaddleTotal(pageCount);
    seq(total / 4, i requires 0 <= i < total / 4 => SaddleSheetAt(total, pageCount, i))
  }

  /** Slot `s` of a sheet, numbered as in `SaddleSlotPage`. */
  function SlotOfSheet(sh: SaddleSheet, s: nat): Option<nat>
  {
    if s < 2 then (if s < |sh.front| then sh.front[s] else None)
    else if s - 2 < |sh.back| then sh.back[s - 2] else None
  }

  /** Every source page is on exactly one slot of exactly one sheet of the
      booklet, and a blank slot stands for a padding page past the last one. */
  lemma SaddleSheetsPlaceEachPageOnce(pageCount: nat, p: nat)
    requires p < pageCount
    ensures var sheets := SaddleSheets(pageCount);
      (exists i, s :: 0 <= i < |sheets| && 0 <= s < 4 && SlotOfSheet(sheets[i], s) == Some(p)) &&
      (forall i, s, j, t ::
         (0 <= i < |sheets| && 0 <= s < 4 && 0 <= j < |sheets| && 0 <= t < 4 &&
          SlotOfSheet(sheets[i], s) == Some(p) && SlotOfSheet(sheets[j], t) == Some(p)) ==> i == j && s == t)
  {
    var sheets := SaddleSheets(pageCount);
    var total := SaddleTotal(pageCount);
    var (i, s) := SaddleSlotOf(total, p);
    SlotOfSaddleSheet(pageCount, i, s);
    assert SlotOfSheet(sheets[i], s) == Some(p);
    forall i, s, j, t | 0 <= i < |sheets| && 0 <= s < 4 && 0 <= j < |sheets| && 0 <= t < 4 &&
         SlotOfSheet(sheets[i], s) == Some(p) && SlotOfSheet(sheets[j], t) == Some(p)
      ensures i == j && s == t
    {
      SlotOfSaddleSheet(pageCount, i, s);
      SlotOfSaddleSheet(pageCount, j, t);
      SaddleSlotPageInjective(total, i, s, j, t);
    }
  }

  /** Slot `s` of booklet sheet `i` holds the page `SaddleSlotPage` numbers, or a
      blank past the last page. */
  lemma SlotOfSaddleSheet(pageCount: nat, i: nat, s: nat)
    requires i < |SaddleSheets(pageCount)| && s < 4
    ensures SaddleTotal(pageCount) % 4 == 0
    ensures SlotOfSheet(SaddleSheets(pageCount)[i], s) == Masked(SaddleSlotPage(SaddleTotal(pageCount), i, s), pageCount)
  {
  }

  /** Blank slots are exactly the padding pages past the last source page. */
  lemma SaddleBlanksArePadding(pageCount: nat, i: nat, s: nat)
    requires i < |SaddleSheets(pageCount)| && s < 4
    ensures SlotOfSheet(SaddleSheets(pageCount)[i], s).None? <==>
            pageCount <= SaddleSlotPage(SaddleTotal(pageCount), i, s)
  {
  }

  /** Builds the booklet's sheets one by one. */
  method GetSaddleStitchSheets(pageCount: nat) returns (sheets: seq<SaddleSheet>)
    ensures sheets == SaddleSheets(pageCount)
  {
    var total := CeilDiv(pageCount, 4) * 4;
    sheets := [];
    for i := 0 to total / 4
      invariant |sheets| == i
      invariant forall k :: 0 <= k < i ==> sheets[k] == SaddleSheetAt(total, pageCount, k)
    {
      var frontLeft := total - 2 * i - 1;
      var frontRight := 2 * i;
      var backLeft := 2 * i + 1;
      var backRight := total - 2 * i - 2;
      sheets := sheets + [SaddleSheet(
        [if frontLeft < pageCount then Some(frontLeft) else None,
         if frontRight < pageCount then Some(frontRight) else None],
        [if backLeft < pageCount then Some(backLeft) else None,
         if backRight < pageCount then Some(backRight) else None])];
    }
  }

  /** The cells of one side showing `pages` in order, wrapped after `cols` cells. */
  function SideCells(pages: seq<Option<nat>>, cols: nat, rotation: int): (g: seq<GridCell>)
    requires cols >= 1
    ensures |g| == |pages|
    ensures forall i :: 0 <= i < |g| ==>
              g[i].pageIndex == pages[i] && g[i].row == i / cols && g[i].col == i % cols && g[i].rotation == rotation
  {
    seq(|pages|, i requires 0 <= i < |pages| => NewCell(i / cols, i % cols, pages[i], rotation))
  }

  /** The front of the requested booklet sheet (clamped to the sheets there are);
      no cells at all for an empty document. */
  function SaddleStitchGrid(cols: nat, pageCount: nat, rotation: int, sheetNumber: int): seq<GridCell>
    requires cols >= 1
  {
    var sheets := SaddleSheets(pageCount);
    if |sheets| == 0 then [] else SideCells(sheets[ClampSheet(sheetNumber, |sheets|)].front, cols, rotation)
  }

  /** Builds the cells of one side from its page list. */
  method FillSide(pages: seq<Option<nat>>, cols: nat, rotation: int) returns (grid: seq<GridCell>)
    requires cols >= 1
    ensures grid == SideCells(pages, cols, rotation)
  {
    grid := [];
    for i := 0 to |pages|
      invariant grid == SideCells(pages[..i], cols, rotation)
    {
      grid := grid + [NewCell(i / cols, i % cols, pages[i], rotation)];
    }
    assert pages[..|pages|] == pages;
  }

  method BuildSaddleStitchGrid(rows: nat, cols: nat, pageCount: nat, rotation: int, sheetNumber: int)
    returns (grid: seq<GridCell>)
    requires cols >= 1
    ensures grid == SaddleStitchGrid(cols, pageCount, rotation, sheetNumber)
  {
    var sheets := GetSaddleStitchSheets(pageCount);
    grid := [];
    if |sheets| > 0 {
      var idx := MaxInt(0, MinInt(sheetNumber, |sheets| - 1));
      grid := FillSide(sheets[idx].front, cols, rotation);
    }
  }

  // ---------------------------------------------------------------- layout

  /** The grid of the requested sheet for each imposition mode: every cell shows
      page 0 in step and repeat; consecutive pages from `sheetNumber * nUp` in cut
      and stack and in perfect binding; the front of a booklet sheet in saddle
      stitching. */
  function GridFor(mode: ImpositionMode, rows: nat, cols: nat, pageCount: nat, rotation: int,
                   sheetNumber: nat, nUp: nat): seq<GridCell>
    requires cols >= 1
  {
    match mode
    case StepAndRepeat => UniformGrid(rows, cols, Some(0), rotation)
    case CutAndStack => SequentialGrid(rows, cols, sheetNumber * nUp, pageCount, rotation)
    case BookletSaddleStitch => SaddleStitchGrid(cols, pageCount, rotation, sheetNumber)
    case BookletPerfectBind => SequentialGrid(rows, cols, sheetNumber * nUp, pageCount, rotation)
  }

  method BuildGrid(mode: ImpositionMode, rows: nat, cols: nat, pageCount: nat, rotation: int,
                   sheetNumber: nat, nUp: nat) returns (grid: seq<GridCell>)
    requires cols >= 1
    ensures grid == GridFor(mode, rows, cols, pageCount, rotation, sheetNumber, nUp)
  {
    match mode
    case StepAndRepeat =>
      grid := FillUniform(rows, cols, Some(0), rotation);
    case CutAndStack =>
      var cursor;
      grid, cursor := FillSequential(rows, cols, sheetNumber * nUp, pageCount, rotation);
    case BookletSaddleStitch =>
      grid := BuildSaddleStitchGrid(rows, cols, pageCount, rotation, sheetNumber);
    case BookletPerfectBind =>
      var cursor;
      grid, cursor := FillSequential(rows, cols, sheetNumber * nUp, pageCount, rotation);
  }

  /** The grid count with the trim as configured, on the oriented sheet. */
  function NormalCount(c: ImpositionConfig): (nat, nat)
  {
    var sheet := OrientSheet(c.sheet);
    GridCount(sheet.0, sheet.1, c.sheet.markMargin, c.sheet.gripEdge,
              c.trimWidth, c.trimHeight, c.bleed, c.gapBetweenItems)
  }

  /** The grid count with the trim turned by 90 degrees (the bleeds stay as they are). */
  function RotatedCount(c: ImpositionConfig): (nat, nat)
  {
    var sheet := OrientSheet(c.sheet);
    GridCount(sheet.0, sheet.1, c.sheet.markMargin, c.sheet.gripEdge,
              c.trimHeight, c.trimWidth, c.bleed, c.gapBetweenItems)
  }

  datatype GridChoice = GridChoice(cols: nat, rows: nat, rotation: int)

  /** The grid actually used: the rotated one only when rotating is allowed and
      strictly more items fit, each dimension at least 1. */
  function ChooseGrid(c: ImpositionConfig): (g: GridChoice)
    ensures g.cols >= 1 && g.rows >= 1
    ensures g.rotation == 0 || g.rotation == 90
    ensures g.rotation == 90 <==>
              c.autoRotate && RotatedCount(c).0 * RotatedCount(c).1 > NormalCount(c).0 * NormalCount(c).1
    ensures g.cols * g.rows >= NormalCount(c).0 * NormalCount(c).1
    ensures c.autoRotate ==> g.cols * g.rows >= RotatedCount(c).0 * RotatedCount(c).1
  {
    var n := NormalCount(c);
    var r := RotatedCount(c);
    var useRotated := c.autoRotate && r.0 * r.1 > n.0 * n.1;
    var best := if useRotated then r else n;
    var g := GridChoice(MaxInt(1, best.0), MaxInt(1, best.1), if useRotated then 90 else 0);
    ProductMono(best.0, best.1, g.cols, g.rows);
    g
  }

  /** The layout of one sheet: the chosen grid, `nUp = rows * cols`, the sheet
      count, and the grid of the requested sheet (clamped to the sheets there are). */
  function LayoutFor(c: ImpositionConfig, pageCount: nat, sheetNumber: int): (l: ImpositionLayout)
    ensures l.rows >= 1 && l.cols >= 1 && l.nUp == l.cols * l.rows && l.nUp >= 1
    ensures l.cellRotation == ChooseGrid(c).rotation
    ensures l.totalSheets == TotalSheets(c.mode, c.duplex, pageCount, l.nUp)
  {
    var g := ChooseGrid(c);
    var nUp := g.cols * g.rows;
    MulMono(1, g.cols, g.rows);
    var total := TotalSheets(c.mode, c.duplex, pageCount, nUp);
    var s := ClampSheet(sheetNumber, total);
    ImpositionLayout(g.rows, g.cols, nUp, total, g.rotation,
                     GridFor(c.mode, g.rows, g.cols, pageCount, g.rotation, s, nUp))
  }

  /** The first half of `calculate_imposition_layout`: orient the sheet, count
      the grid both ways and keep the better one, each dimension at least 1. */
  method SelectGrid(c: ImpositionConfig) returns (bestCols: nat, bestRows: nat, rotation: int)
    ensures GridChoice(bestCols, bestRows, rotation) == ChooseGrid(c)
  {
    var sheetW, sheetH := c.sheet.sheetWidth, c.sheet.sheetHeight;
    if c.sheet.orientation == "landscape" && sheetW < sheetH {
      sheetW, sheetH := sheetH, sheetW;
    } else if c.sheet.orientation == "portrait" && sheetW > sheetH {
      sheetW, sheetH := sheetH, sheetW;
    }
    assert (sheetW, sheetH) == OrientSheet(c.sheet);
    var colsN, rowsN := CalcGridCount(sheetW, sheetH, c.sheet.markMargin, c.sheet.gripEdge,
                                      c.trimWidth, c.trimHeight, c.bleed, c.gapBetweenItems);
    var nUpNormal := colsN * rowsN;
    rotation := 0;
    bestCols, bestRows := colsN, rowsN;
    if c.autoRotate {
      var colsR, rowsR := CalcGridCount(sheetW, sheetH, c.sheet.markMargin, c.sheet.gripEdge,
                                        c.trimHeight, c.trimWidth, c.bleed, c.gapBetweenItems);
      if colsR * rowsR > nUpNormal {
        bestCols, bestRows := colsR, rowsR;
        rotation := 90;
      }
    }
    if bestCols < 1 {
      bestCols := 1;
    }
    if bestRows < 1 {
      bestRows := 1;
    }
  }

  /** `calculate_imposition_layout`: the layout of the requested sheet. */
  method CalculateImpositionLayout(c: ImpositionConfig, pageCount: nat, sheetNumber: int)
    returns (layout: ImpositionLayout)
    ensures layout == LayoutFor(c, pageCount, sheetNumber)
  {
    var bestCols, bestRows, rotation := SelectGrid(c);
    var nUp := bestCols * bestRows;
    var pagesPerSheet := if c.duplex then nUp * 2 else nUp;
    var totalSheets: int;
    if c.mode == StepAndRepeat {
      totalSheets := if c.duplex then MaxInt(1, CeilDiv(pageCount, 2)) else MaxInt(1, pageCount);
    } else {
      totalSheets := MaxInt(1, CeilDiv(pageCount, pagesPerSheet));
    }
    assert totalSheets == TotalSheets(c.mode, c.duplex, pageCount, nUp);
    var sheet := MaxInt(0, MinInt(sheetNumber, totalSheets - 1));
    var grid := BuildGrid(c.mode, bestRows, bestCols, pageCount, rotation, sheet, nUp);
    layout := ImpositionLayout(bestRows, bestCols, nUp, totalSheets, rotation, grid);
  }

  /** The page a sequential job puts in slot `k` of sheet `s` when every sheet
      holds `n` cells. */
  function SheetSlotPage(s: nat, k: nat, n: nat, pageCount: nat): Option<nat>
  {
    SequentialPage(s * n, k, pageCount)
  }

  /** Sheets of `n` cells filled in sequence place page `p` in slot `p % n` of
      sheet `p / n`, which is one of the `total` sheets. */
  lemma SequentialPagePlaced(n: nat, total: nat, pageCount: nat, p: nat)
    requires n >= 1 && total * n >= pageCount && p < pageCount
    ensures p / n < total && SheetSlotPage(p / n, p % n, n, pageCount) == Some(p)
  {
    if p / n >= total {
      MulMono(total, p / n, n);
      assert false;
    }
  }

  /** ... and in no other slot of any sheet. */
  lemma SequentialPageUnique(n: nat, pageCount: nat, p: nat, s: nat, k: nat)
    requires k < n && SheetSlotPage(s, k, n, pageCount) == Some(p)
    ensures s == p / n && k == p % n
  {
    RowMajorDivMod(s, k, n);
  }

  /** In the sequential modes the grid of sheet `s` is the row-major run of pages
      starting at `s * nUp`, for every sheet there is. */
  lemma SequentialLayoutGrid(c: ImpositionConfig, pageCount: nat, s: nat)
    requires c.mode == CutAndStack || c.mode == BookletPerfectBind
    requires s < LayoutFor(c, pageCount, 0).totalSheets
    ensures var l := LayoutFor(c, pageCount, s);
      l.totalSheets == LayoutFor(c, pageCount, 0).totalSheets && l.nUp == LayoutFor(c, pageCount, 0).nUp &&
      l.grid == SequentialGrid(l.rows, l.cols, s * l.nUp, pageCount, l.cellRotation)
  {
  }

  /** In cut and stack and in perfect binding without duplex, going through the
      sheets `0 .. totalSheets - 1` shows every source page: page `p` is slot
      `p % nUp` of sheet `p / nUp`. */
  lemma SequentialSheetsShowEachPage(c: ImpositionConfig, pageCount: nat, p: nat)
    requires c.mode == CutAndStack || c.mode == BookletPerfectBind
    requires !c.duplex && p < pageCount
    ensures var l := LayoutFor(c, pageCount, 0);
      p / l.nUp < l.totalSheets && p % l.nUp < |LayoutFor(c, pageCount, p / l.nUp).grid| &&
      LayoutFor(c, pageCount, p / l.nUp).grid[p % l.nUp].pageIndex == Some(p)
  {
    var l := LayoutFor(c, pageCount, 0);
    DivBounds(p, l.nUp);
    assert SheetCapacity(c.mode, c.duplex, l.nUp) == l.nUp;
    SequentialPagePlaced(l.nUp, l.totalSheets, pageCount, p);
    SequentialLayoutGrid(c, pageCount, p / l.nUp);
  }

  /** ... and no other slot of any sheet shows it. */
  lemma SequentialSheetsShowPageOnce(c: ImpositionConfig, pageCount: nat, p: nat)
    requires c.mode == CutAndStack || c.mode == BookletPerfectBind
    ensures var l := LayoutFor(c, pageCount, 0);
      forall s, k ::
        (0 <= s < l.totalSheets && 0 <= k < |LayoutFor(c, pageCount, s).grid| &&
         LayoutFor(c, pageCount, s).grid[k].pageIndex == Some(p)) ==> s == p / l.nUp && k == p % l.nUp
  {
    var l := LayoutFor(c, pageCount, 0);
    DivBounds(p, l.nUp);
    forall s, k | 0 <= s < l.totalSheets && 0 <= k < |LayoutFor(c, pageCount, s).grid| &&
        LayoutFor(c, pageCount, s).grid[k].pageIndex == Some(p)
      ensures s == p / l.nUp && k == p % l.nUp
    {
      SequentialLayoutGrid(c, pageCount, s);
      var ls := LayoutFor(c, pageCount, s);
      assert |ls.grid| == ls.rows * ls.cols == ls.nUp == l.nUp;
      assert ls.grid[k].pageIndex == SheetSlotPage(s, k, l.nUp, pageCount);
      SequentialPageUnique(l.nUp, pageCount, p, s, k);
    }
  }

  /** The step-and-repeat preview shows page 0 in every cell, whatever sheet is
      asked for. */
  lemma StepAndRepeatShowsFirstPage(c: ImpositionConfig, pageCount: nat, sheetNumber: int)
    requires c.mode == StepAndRepeat
    ensures var l := LayoutFor(c, pageCount, sheetNumber);
      |l.grid| == l.nUp && forall k :: 0 <= k < |l.grid| ==> l.grid[k].pageIndex == Some(0)
  {
  }
}
