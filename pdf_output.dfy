/** The imposed-PDF pipeline: the checks made before imposing, the loops that
    decide which source page lands on which side of which press sheet, and the
    placement of source pages on a sheet side. Building PDF objects is left to
    an abstract emitter: a builder returns the sides it emits, in order. */
module PdfOutput {
  import opened Wrappers
  import opened Numeric
  import opened Models
  import opened Utils
  import opened ImpositionEngine
  import opened BleedManager
  import opened DuplexHandler
  import opened MarkPlacer
  import opened PdfAnalyzer

  // ---------------------------------------------------------------- validation

  datatype ImposeError =
    | TrimTooWide(trimW: real, sheetW: real)
    | TrimTooTall(trimH: real, sheetH: real)
    | NothingFits

  /** The trim size of the job: the configured one, or, when either configured
      dimension is 0, page 1's trim box, else page 1's media box. */
  function JobTrim(config: ImpositionConfig, pages: seq<PageGeometry>): (t: (real, real))
    ensures config.trimWidth != 0.0 && config.trimHeight != 0.0 ==> t == (config.trimWidth, config.trimHeight)
    ensures (config.trimWidth == 0.0 || config.trimHeight == 0.0) && |pages| > 0 ==>
              t == (if pages[0].trimBox.Some? then (pages[0].trimBox.value.width, pages[0].trimBox.value.height)
                    else (pages[0].mediaBox.width, pages[0].mediaBox.height))
    ensures |pages| == 0 ==> t == (config.trimWidth, config.trimHeight)
  {
    if config.trimWidth == 0.0 || config.trimHeight == 0.0 then
      if |pages| > 0 && pages[0].trimBox.Some? then (pages[0].trimBox.value.width, pages[0].trimBox.value.height)
      else if |pages| > 0 then (pages[0].mediaBox.width, pages[0].mediaBox.height)
      else (config.trimWidth, config.trimHeight)
    else (config.trimWidth, config.trimHeight)
  }

  /** The trim with its left and right bleed fits across the oriented sheet, and
      with its top and bottom bleed fits up it. */
  predicate FitsOnSheet(sheet: SheetConfig, bleed: BleedConfig, trimW: real, trimH: real)
  {
    trimW + bleed.left + bleed.right <= OrientSheet(sheet).0 &&
    trimH + bleed.top + bleed.bottom <= OrientSheet(sheet).1
  }

  /** The fit test of `generate_imposed_pdf`: the width is checked first. */
  function CheckTrimFits(sheet: SheetConfig, bleed: BleedConfig, trimW: real, trimH: real): (r: Result<(real, real), ImposeError>)
    ensures r.Ok? <==> FitsOnSheet(sheet, bleed, trimW, trimH)
    ensures r.Ok? ==> r.value == OrientSheet(sheet)
    ensures r.Err? && r.error.TrimTooWide? <==> trimW + bleed.left + bleed.right > OrientSheet(sheet).0
    ensures r.Err? && r.error.TrimTooTall? ==>
              trimW + bleed.left + bleed.right <= OrientSheet(sheet).0 &&
              trimH + bleed.top + bleed.bottom > OrientSheet(sheet).1
    ensures r.Err? ==> r.error.TrimTooWide? || r.error.TrimTooTall?
  {
    var size := OrientSheet(sheet);
    if trimW + bleed.left + bleed.right > size.0 then Err(TrimTooWide(trimW, size.0))
    else if trimH + bleed.top + bleed.bottom > size.1 then Err(TrimTooTall(trimH, size.1))
    else Ok(size)
  }

  /** The size a cell's trim takes on the sheet: turned a quarter exactly when the
      layout rotates its cells by 90 degrees. */
  function EffectiveTrim(rotation: int, trimW: real, trimH: real): (e: (real, real))
    ensures rotation == 90 ==> e == (trimH, trimW)
    ensures rotation != 90 ==> e == (trimW, trimH)
  {
    if rotation == 90 then (trimH, trimW) else (trimW, trimH)
  }

  /** Everything the builders need: the layout, the job's trim and its size on the
      sheet, and the file name and date the slug shows. `round2` stands for
      Python's `round(v, 2)`. */
  datatype Job = Job(config: ImpositionConfig, layout: ImpositionLayout, trimW: real, trimH: real,
                     effW: real, effH: real, filename: string, dateText: string, round2: real -> real)

  predicate ValidJob(job: Job)
  {
    job.layout.rows >= 1 && job.layout.cols >= 1
  }

  /** Steps 2 and 3 of `generate_imposed_pdf`: the trim, the fit check, the layout
      of sheet 0 and the effective trim. */
  function PlanImposition(config: ImpositionConfig, analysis: AnalysisResult, filename: string, dateText: string,
                          round2: real -> real): (r: Result<Job, ImposeError>)
    ensures r.Ok? ==> ValidJob(r.value)
  {
    var trim := JobTrim(config, analysis.pages);
    match CheckTrimFits(config.sheet, config.bleed, trim.0, trim.1)
    case Err(e) => Err(e)
    case Ok(_) =>
      var layout := LayoutFor(config, analysis.pageCount, 0);
      if layout.nUp == 0 then Err(NothingFits)
      else
        var eff := EffectiveTrim(layout.cellRotation, trim.0, trim.1);
        Ok(Job(config, layout, trim.0, trim.1, eff.0, eff.1, filename, dateText, round2))
  }

  /** Imposition is refused exactly when the trim and bleed do not fit the oriented
      sheet; the "nothing fits" error is never raised, since every layout has at
      least one cell. */
  lemma PlanImpositionErrors(config: ImpositionConfig, analysis: AnalysisResult, filename: string, dateText: string,
                             round2: real -> real)
    ensures var trim := JobTrim(config, analysis.pages);
            PlanImposition(config, analysis, filename, dateText, round2).Err? <==>
            !FitsOnSheet(config.sheet, config.bleed, trim.0, trim.1)
    ensures PlanImposition(config, analysis, filename, dateText, round2).Err? ==>
            !PlanImposition(config, analysis, filename, dateText, round2).error.NothingFits?
    ensures PlanImposition(config, analysis, filename, dateText, round2).Ok? ==>
            var job := PlanImposition(config, analysis, filename, dateText, round2).value;
            job.layout == LayoutFor(config, analysis.pageCount, 0) &&
            (job.effW, job.effH) == EffectiveTrim(job.layout.cellRotation, job.trimW, job.trimH) &&
            FitsOnSheet(config.sheet, config.bleed, job.trimW, job.trimH)
  {
    var layout := LayoutFor(config, analysis.pageCount, 0);
    assert layout.nUp >= 1 by {
      MulMono(1, layout.cols, layout.rows);
    }
  }

  // ---------------------------------------------------------------- one side

  /** One side of a press sheet as handed to assembly: its placed cells and its
      marks. */
  datatype Side = Side(grid: seq<GridCell>, marks: seq<MarkObject>)

  /** A front side: bleed and positions computed on the cells as given, then
      the marks for sheet `sheetNum` of `totalSheets`. */
  function FrontSide(grid: seq<GridCell>, job: Job, sheetNum: int, totalSheets: int): Side
  {
    var l, c := job.layout, job.config;
    var placed := CellPositions(PerCellBleed(grid, l.rows, l.cols, c.bleed, c.gapBetweenItems),
                                c.sheet, l.rows, l.cols, c.bleed, c.gapBetweenItems, job.effW, job.effH);
    Side(placed, AllMarks(placed, l, c.marks, c.sheet, job.effW, job.effH, job.filename, job.dateText,
                          sheetNum, totalSheets, job.round2))
  }

  /** A duplex back side: the cells mirrored for the flip edge and placed again,
      then its marks. */
  function BackSide(grid: seq<GridCell>, job: Job, sheetNum: int, totalSheets: int): Side
  {
    var l, c := job.layout, job.config;
    var placed := DuplexBack(grid, l, c, job.effW, job.effH);
    Side(placed, AllMarks(placed, l, c.marks, c.sheet, job.effW, job.effH, job.filename, job.dateText,
                          sheetNum, totalSheets, job.round2))
  }

  /** Placing a side keeps its cells' pages, slot for slot. */
  lemma SidesKeepPages(grid: seq<GridCell>, job: Job, sheetNum: int, totalSheets: int)
    ensures |FrontSide(grid, job, sheetNum, totalSheets).grid| == |grid|
    ensures forall k :: 0 <= k < |grid| ==> FrontSide(grid, job, sheetNum, totalSheets).grid[k].pageIndex == grid[k].pageIndex
    ensures |BackSide(grid, job, sheetNum, totalSheets).grid| == |grid|
    ensures forall k :: 0 <= k < |grid| ==> BackSide(grid, job, sheetNum, totalSheets).grid[k].pageIndex == grid[k].pageIndex
  {
    var l, c := job.layout, job.config;
    var bled := PerCellBleed(grid, l.rows, l.cols, c.bleed, c.gapBetweenItems);
    assert SameSlots(bled, grid);
    DuplexBackKeepsPages(grid, l, c, job.effW, job.effH);
  }

  /** Bleed, positions and marks of a front side, on a copy of the cells. */
  method PrepareFront(grid: seq<GridCell>, job: Job, sheetNum: int, totalSheets: int) returns (side: Side)
    ensures side == FrontSide(grid, job, sheetNum, totalSheets)
  {
    var l, c := job.layout, job.config;
    var cells := new GridCell[|grid|](i requires 0 <= i < |grid| => grid[i]);
    assert cells[..] == grid;
    CalculatePerCellBleed(cells, l.rows, l.cols, c.bleed, c.gapBetweenItems);
    CalculateCellPositions(cells, l.rows, l.cols, c.sheet, c.bleed, c.gapBetweenItems, job.effW, job.effH);
    var marks := PlaceAllMarks(cells[..], l, c.marks, c.bleed, c.sheet, job.effW, job.effH, job.filename,
                               job.dateText, sheetNum, totalSheets, job.round2);
    side := Side(cells[..], marks);
  }

  /** The mirrored back of a side and its marks. */
  method PrepareBack(grid: seq<GridCell>, job: Job, sheetNum: int, totalSheets: int) returns (side: Side)
    ensures side == BackSide(grid, job, sheetNum, totalSheets)
  {
    var l, c := job.layout, job.config;
    var cells := new GridCell[|grid|](i requires 0 <= i < |grid| => grid[i]);
    assert cells[..] == grid;
    var back := CreateDuplexBack(cells, l, c, job.effW, job.effH);
    var marks := PlaceAllMarks(back[..], l, c.marks, c.bleed, c.sheet, job.effW, job.effH, job.filename,
                               job.dateText, sheetNum, totalSheets, job.round2);
    side := Side(back[..], marks);
  }

  /** What a builder hands to a side: its cells before placement, whether it is a
      duplex back (mirrored for the flip edge), and the sheet numbers of its slug. */
  datatype SideRequest = SideRequest(cells: seq<GridCell>, duplexBack: bool, sheetNum: int, totalSheets: int)

  function Render(job: Job, r: SideRequest): Side
  {
    if r.duplexBack then BackSide(r.cells, job, r.sheetNum, r.totalSheets)
    else FrontSide(r.cells, job, r.sheetNum, r.totalSheets)
  }

  method RenderSide(job: Job, r: SideRequest) returns (side: Side)
    ensures side == Render(job, r)
  {
    if r.duplexBack {
      side := PrepareBack(r.cells, job, r.sheetNum, r.totalSheets);
    } else {
      side := PrepareFront(r.cells, job, r.sheetNum, r.totalSheets);
    }
  }

  /** A rendered side shows the pages of its request's cells, slot for slot. */
  lemma RenderKeepsPages(job: Job, r: SideRequest)
    ensures |Render(job, r).grid| == |r.cells|
    ensures forall k :: 0 <= k < |r.cells| ==> Render(job, r).grid[k].pageIndex == r.cells[k].pageIndex
  {
    SidesKeepPages(r.cells, job, r.sheetNum, r.totalSheets);
  }

  // ---------------------------------------------------------------- step and repeat

  function SidesPerSheet(duplex: bool): nat
  {
    if duplex then 2 else 1
  }

  /** Step and repeat prints one source page per sheet, or a pair of pages per
      sheet with duplex. */
  function StepSheets(pageCount: nat, duplex: bool): nat
  {
    if duplex then CeilDiv(pageCount, 2) else pageCount
  }

  /** Side `j` of a step-and-repeat job: every cell shows the same page. With
      duplex, even sides are fronts and odd sides the backs of the same sheets. The
      slug counts the sheets against the page count. */
  function StepAndRepeatRequest(job: Job, pageCount: nat, j: nat): SideRequest
    requires ValidJob(job)
  {
    var rows, cols, rot := job.layout.rows as nat, job.layout.cols as nat, job.layout.cellRotation;
    if job.config.duplex then
      if j % 2 == 0 then SideRequest(UniformGrid(rows, cols, Some(j), rot), false, j / 2 + 1, pageCount)
      else SideRequest(UniformGrid(rows, cols, Masked(j, pageCount), rot), true, j / 2 + 1, pageCount)
    else SideRequest(UniformGrid(rows, cols, Some(j), rot), false, j + 1, pageCount)
  }

  function StepAndRepeatRequests(job: Job, pageCount: nat): seq<SideRequest>
    requires ValidJob(job)
  {
    var n := SidesPerSheet(job.config.duplex) * StepSheets(pageCount, job.config.duplex);
    seq(n, j requires 0 <= j < n => StepAndRepeatRequest(job, pageCount, j))
  }

  /** `_build_step_and_repeat`: the sides it emits, in order, and what each was
      made from. */
  method BuildStepAndRepeat(job: Job, pageCount: nat) returns (requests: seq<SideRequest>, sides: seq<Side>)
    requires ValidJob(job)
    ensures requests == StepAndRepeatRequests(job, pageCount)
    ensures |sides| == |requests| && forall j :: 0 <= j < |sides| ==> sides[j] == Render(job, requests[j])
  {
    var duplex := job.config.duplex;
    var pageIdx: nat := 0;
    var sheetNum: nat := 0;
    requests, sides := [], [];
    while pageIdx < pageCount
      invariant pageIdx == if duplex then MinInt(2 * sheetNum, pageCount) else sheetNum
      invariant sheetNum == 0 || SidesPerSheet(duplex) * (sheetNum - 1) < pageCount
      invariant |requests| == SidesPerSheet(duplex) * sheetNum
      invariant StepPrefix(job, pageCount, requests) && Rendered(job, requests, sides)
      decreases pageCount - pageIdx
    {
      sheetNum := sheetNum + 1;
      requests, sides, pageIdx := StepNextSheet(job, pageCount, pageIdx, sheetNum, requests, sides);
    }
    if duplex {
      CeilDivUnique(pageCount, 2, sheetNum);
    }
    StepRequestsFrom(job, pageCount, requests);
  }

  /** One pass of the sheet loop of `_build_step_and_repeat`: the front of sheet
      `sheetNum` repeats page `pageIdx`, and with duplex its back repeats the next
      page, or nothing when none is left. */
  method StepNextSheet(job: Job, pageCount: nat, pageIdx: nat, sheetNum: nat,
                       done: seq<SideRequest>, doneSides: seq<Side>)
    returns (requests: seq<SideRequest>, sides: seq<Side>, next: nat)
    requires ValidJob(job) && sheetNum >= 1 && pageIdx < pageCount
    requires pageIdx == if job.config.duplex then 2 * (sheetNum - 1) else sheetNum - 1
    requires |done| == SidesPerSheet(job.config.duplex) * (sheetNum - 1)
    requires StepPrefix(job, pageCount, done) && Rendered(job, done, doneSides)
    ensures |requests| == SidesPerSheet(job.config.duplex) * sheetNum
    ensures next == if job.config.duplex then MinInt(2 * sheetNum, pageCount) else sheetNum
    ensures StepPrefix(job, pageCount, requests) && Rendered(job, requests, sides)
  {
    requests, sides := StepSide(job, pageCount, Some(pageIdx), false, sheetNum, done, doneSides);
    next := pageIdx + 1;
    if job.config.duplex {
      var backPageIdx := if next < pageCount then Some(next) else None;
      requests, sides := StepSide(job, pageCount, backPageIdx, true, sheetNum, requests, sides);
      if backPageIdx.Some? {
        next := next + 1;
      }
    }
  }

  /** Fills a grid with `page`, renders it as a front or a back, and appends both
      to those made so far. */
  method StepSide(job: Job, pageCount: nat, page: Option<nat>, duplexBack: bool, sheetNum: nat,
                  done: seq<SideRequest>, doneSides: seq<Side>)
    returns (requests: seq<SideRequest>, sides: seq<Side>)
    requires ValidJob(job) && StepPrefix(job, pageCount, done) && Rendered(job, done, doneSides)
    requires StepAndRepeatRequest(job, pageCount, |done|) ==
             SideRequest(UniformGrid(job.layout.rows, job.layout.cols, page, job.layout.cellRotation),
                         duplexBack, sheetNum, pageCount)
    ensures |requests| == |done| + 1
    ensures StepPrefix(job, pageCount, requests) && Rendered(job, requests, sides)
  {
    var grid := FillUniform(job.layout.rows, job.layout.cols, page, job.layout.cellRotation);
    var request := SideRequest(grid, duplexBack, sheetNum, pageCount);
    var side := RenderSide(job, request);
    StepPrefixExtends(job, pageCount, done, request);
    RenderedExtends(job, done, doneSides, [request], [side]);
    requests, sides := done + [request], doneSides + [side];
  }

  /** The sides made so far are the first sides of the step-and-repeat job. */
  predicate StepPrefix(job: Job, pageCount: nat, requests: seq<SideRequest>)
    requires ValidJob(job)
  {
    forall j :: 0 <= j < |requests| ==> requests[j] == StepAndRepeatRequest(job, pageCount, j)
  }

  /** Appending the next side keeps the prefix. */
  lemma StepPrefixExtends(job: Job, pageCount: nat, requests: seq<SideRequest>, r: SideRequest)
    requires ValidJob(job) && StepPrefix(job, pageCount, requests)
    requires r == StepAndRepeatRequest(job, pageCount, |requests|)
    ensures StepPrefix(job, pageCount, requests + [r])
  {
    var more := requests + [r];
    forall j | 0 <= j < |more| ensures more[j] == StepAndRepeatRequest(job, pageCount, j) {
      if j < |requests| {
        assert more[j] == requests[j];
      }
    }
  }

  /** A prefix as long as the job is the job. */
  lemma StepRequestsFrom(job: Job, pageCount: nat, requests: seq<SideRequest>)
    requires ValidJob(job) && StepPrefix(job, pageCount, requests)
    requires |requests| == SidesPerSheet(job.config.duplex) * StepSheets(pageCount, job.config.duplex)
    ensures requests == StepAndRepeatRequests(job, pageCount)
  {
  }

  /** Side `j` of a step-and-repeat job has `rows * cols` cells that all show the
      page `j`, or nothing on the back of a last sheet with no page left. */
  lemma StepAndRepeatPages(job: Job, pageCount: nat, j: nat, k: nat)
    requires ValidJob(job)
    requires j < |StepAndRepeatRequests(job, pageCount)| && k < |StepAndRepeatRequests(job, pageCount)[j].cells|
    ensures StepAndRepeatRequests(job, pageCount)[j].cells[k].pageIndex == Masked(j, pageCount)
    ensures |StepAndRepeatRequests(job, pageCount)[j].cells| == job.layout.rows * job.layout.cols
  {
    var n := StepSheets(pageCount, job.config.duplex);
    if job.config.duplex && j % 2 == 0 {
      assert j < pageCount by {
        assert j + 1 < 2 * n;
        assert (n - 1) * 2 < pageCount;
      }
    }
  }

  /** Every source page is printed, page `p` on side `p`, and the job takes as many
      sheets as pages, or half as many rounded up with duplex. */
  lemma StepAndRepeatShowsEveryPage(job: Job, pageCount: nat, p: nat)
    requires ValidJob(job) && p < pageCount
    ensures p < |StepAndRepeatRequests(job, pageCount)|
    ensures forall k :: 0 <= k < |StepAndRepeatRequests(job, pageCount)[p].cells| ==>
              StepAndRepeatRequests(job, pageCount)[p].cells[k].pageIndex == Some(p)
    ensures |StepAndRepeatRequests(job, pageCount)| ==
            SidesPerSheet(job.config.duplex) * StepSheets(pageCount, job.config.duplex)
  {
    forall k | 0 <= k < |StepAndRepeatRequests(job, pageCount)[p].cells|
      ensures StepAndRepeatRequests(job, pageCount)[p].cells[k].pageIndex == Some(p)
    {
      StepAndRepeatPages(job, pageCount, p, k);
    }
  }

  // ---------------------------------------------------------------- sequential

  /** Sheets of a cut-and-stack or perfect-bind job: enough for the page
      cursor to pass the last page when each sheet takes `nUp` pages per side. */
  function SequentialSheets(pageCount: nat, duplex: bool, nUp: nat): nat
    requires nUp >= 1
  {
    CeilDiv(pageCount, SidesPerSheet(duplex) * nUp)
  }

  /** Side `j` of a sequential job starts at page `j * nUp`: the front of sheet `j`,
      or with duplex the front (even `j`) or back (odd `j`) of sheet `j / 2`. The
      slug counts against the layout's sheet total. */
  function SequentialRequest(job: Job, pageCount: nat, j: nat): SideRequest
    requires ValidJob(job)
  {
    var rows, cols, rot := job.layout.rows as nat, job.layout.cols as nat, job.layout.cellRotation;
    var g := SequentialGrid(rows, cols, SideStart(j, rows * cols), pageCount, rot);
    if job.config.duplex then SideRequest(g, j % 2 == 1, j / 2 + 1, job.layout.totalSheets)
    else SideRequest(g, false, j + 1, job.layout.totalSheets)
  }

  /** The first page of side `j` when every side holds `nUp` pages, counted up
      one side at a time as `_build_sequential`'s page cursor does. */
  function SideStart(j: nat, nUp: nat): nat
  {
    if j == 0 then 0 else SideStart(j - 1, nUp) + nUp
  }

  /** Counting up side by side reaches the product `j * nUp`. */
  lemma {:induction false} SideStartIsProduct(j: nat, nUp: nat)
    ensures SideStart(j, nUp) == j * nUp
  {
    if j > 0 {
      SideStartIsProduct(j - 1, nUp);
    }
  }

  function SequentialRequests(job: Job, pageCount: nat): seq<SideRequest>
    requires ValidJob(job)
  {
    var rows, cols := job.layout.rows as nat, job.layout.cols as nat;
    MulMono(1, rows, cols);
    var n := SidesPerSheet(job.config.duplex) * SequentialSheets(pageCount, job.config.duplex, rows * cols);
    seq(n, j requires 0 <= j < n => SequentialRequest(job, pageCount, j))
  }

  /** A sequential fill that starts past the last page leaves every cell empty,
      wherever it starts. */
  lemma SequentialGridPastEnd(rows: nat, cols: nat, a: nat, b: nat, pageCount: nat, rotation: int)
    requires cols >= 1 && a >= pageCount && b >= pageCount
    ensures SequentialGrid(rows, cols, a, pageCount, rotation) == SequentialGrid(rows, cols, b, pageCount, rotation)
  {
  }

  /** The first `|requests|` sides of a sequential job. */
  predicate SequentialPrefix(job: Job, pageCount: nat, requests: seq<SideRequest>)
    requires ValidJob(job)
  {
    forall j :: 0 <= j < |requests| ==> requests[j] == SequentialRequest(job, pageCount, j)
  }

  /** Each side was rendered from the request at the same index. */
  predicate Rendered(job: Job, requests: seq<SideRequest>, sides: seq<Side>)
    requires ValidJob(job)
  {
    |sides| == |requests| && forall j :: 0 <= j < |sides| ==> sides[j] == Render(job, requests[j])
  }

  /** `_build_sequential`: the sides it emits, in order, and what each was made
      from. */
  method BuildSequential(job: Job, pageCount: nat) returns (requests: seq<SideRequest>, sides: seq<Side>)
    requires ValidJob(job)
    ensures requests == SequentialRequests(job, pageCount)
    ensures |sides| == |requests| && forall j :: 0 <= j < |sides| ==> sides[j] == Render(job, requests[j])
  {
    var rows, cols := job.layout.rows as nat, job.layout.cols as nat;
    var duplex := job.config.duplex;
    MulMono(1, rows, cols);
    var nUp: nat := rows * cols;
    ghost var per := SidesPerSheet(duplex);
    var pageCursor: nat := 0;
    var sheetNum: nat := 0;
    requests, sides := [], [];
    while pageCursor < pageCount
      invariant |requests| == if duplex then 2 * sheetNum else sheetNum
      invariant pageCursor == MinInt(SideStart(|requests|, nUp), pageCount)
      invariant |requests| == 0 || SideStart(|requests| - per, nUp) < pageCount
      invariant SequentialPrefix(job, pageCount, requests) && Rendered(job, requests, sides)
      decreases pageCount - pageCursor
    {
      sheetNum := sheetNum + 1;
      requests, sides, pageCursor := SequentialNextSheet(job, pageCount, pageCursor, sheetNum, requests, sides);
    }
    SequentialSheetCount(pageCount, duplex, nUp, sheetNum, |requests|);
    SequentialRequestsFrom(job, pageCount, requests);
  }

  /** One pass of the sheet loop of `_build_sequential`, appending the sides of
      sheet `sheetNum` to those made so far. */
  method SequentialNextSheet(job: Job, pageCount: nat, pageCursor: nat, sheetNum: nat,
                             done: seq<SideRequest>, doneSides: seq<Side>)
    returns (requests: seq<SideRequest>, sides: seq<Side>, cursor: nat)
    requires ValidJob(job) && sheetNum >= 1
    requires |done| == (if job.config.duplex then 2 * (sheetNum - 1) else sheetNum - 1)
    requires pageCursor == MinInt(SideStart(|done|, job.layout.rows * job.layout.cols), pageCount)
    requires SequentialPrefix(job, pageCount, done) && Rendered(job, done, doneSides)
    ensures |requests| == if job.config.duplex then 2 * sheetNum else sheetNum
    ensures cursor == MinInt(SideStart(|requests|, job.layout.rows * job.layout.cols), pageCount)
    ensures |requests| - SidesPerSheet(job.config.duplex) == |done|
    ensures SequentialPrefix(job, pageCount, requests) && Rendered(job, requests, sides)
  {
    requests, sides, cursor := SequentialSide(job, pageCount, pageCursor, false, sheetNum, done, doneSides);
    if job.config.duplex {
      requests, sides, cursor := SequentialSide(job, pageCount, cursor, true, sheetNum, requests, sides);
    }
  }

  /** A sequence of the right length whose every side is `SequentialRequest` of
      its index is `SequentialRequests`. */
  lemma SequentialRequestsFrom(job: Job, pageCount: nat, requests: seq<SideRequest>)
    requires ValidJob(job)
    requires |requests| == SidesPerSheet(job.config.duplex) *
               SequentialSheets(pageCount, job.config.duplex, job.layout.rows * job.layout.cols)
    requires SequentialPrefix(job, pageCount, requests)
    ensures requests == SequentialRequests(job, pageCount)
  {
  }

  /** Appending the sides of the next sheet keeps the sides made so far equal,
      index by index, to the sides of `SequentialRequests`. */
  lemma SequentialPrefixExtends(job: Job, pageCount: nat, before: seq<SideRequest>, r: SideRequest)
    requires ValidJob(job) && SequentialPrefix(job, pageCount, before)
    requires r == SequentialRequest(job, pageCount, |before|)
    ensures SequentialPrefix(job, pageCount, before + [r])
  {
    var all := before + [r];
    forall j | 0 <= j < |all| ensures all[j] == SequentialRequest(job, pageCount, j) {
      if j < |before| {
        assert all[j] == before[j];
      }
    }
  }

  /** Sides rendered one by one from their requests stay so when more are
      appended. */
  lemma RenderedExtends(job: Job, requests: seq<SideRequest>, sides: seq<Side>, moreRequests: seq<SideRequest>, moreSides: seq<Side>)
    requires ValidJob(job)
    requires Rendered(job, requests, sides) && Rendered(job, moreRequests, moreSides)
    ensures Rendered(job, requests + moreRequests, sides + moreSides)
  {
    forall j | 0 <= j < |sides + moreSides| ensures (sides + moreSides)[j] == Render(job, (requests + moreRequests)[j]) {
      if j < |sides| {
        assert (sides + moreSides)[j] == sides[j] && (requests + moreRequests)[j] == requests[j];
      } else {
        assert (sides + moreSides)[j] == moreSides[j - |sides|] && (requests + moreRequests)[j] == moreRequests[j - |sides|];
      }
    }
  }

  /** When the loop of `_build_sequential` stops, it has made exactly
      `SequentialSheets` sheets. */
  lemma SequentialSheetCount(pageCount: nat, duplex: bool, nUp: nat, sheetNum: nat, n: nat)
    requires nUp >= 1 && n == (if duplex then 2 * sheetNum else sheetNum)
    requires SideStart(n, nUp) >= pageCount
    requires n == 0 || SideStart(n - SidesPerSheet(duplex), nUp) < pageCount
    ensures n == SidesPerSheet(duplex) * SequentialSheets(pageCount, duplex, nUp)
  {
    var per := SidesPerSheet(duplex);
    SideStartIsProduct(n, nUp);
    if n > 0 {
      SideStartIsProduct(n - per, nUp);
    }
    assert n == per * sheetNum;
    assert sheetNum * (per * nUp) == n * nUp;
    if sheetNum > 0 {
      assert (sheetNum - 1) * (per * nUp) == (n - per) * nUp;
    }
    CeilDivUnique(pageCount, per * nUp, sheetNum);
  }

  /** One side of the sheet loop of `_build_sequential`: fills side `|done|` of the
      job from the page cursor, which stands at the side's first page or past the
      last page, renders it as a front or a back and appends both to those made so
      far; the cursor moves on by the side's cells. */
  method SequentialSide(job: Job, pageCount: nat, pageCursor: nat, duplexBack: bool, sheetNum: nat,
                        done: seq<SideRequest>, doneSides: seq<Side>)
    returns (requests: seq<SideRequest>, sides: seq<Side>, cursor: nat)
    requires ValidJob(job) && SequentialPrefix(job, pageCount, done) && Rendered(job, done, doneSides)
    requires pageCursor == MinInt(SideStart(|done|, job.layout.rows * job.layout.cols), pageCount)
    requires SequentialRequest(job, pageCount, |done|) ==
             SideRequest(SequentialGrid(job.layout.rows, job.layout.cols, SideStart(|done|, job.layout.rows * job.layout.cols),
                                        pageCount, job.layout.cellRotation),
                         duplexBack, sheetNum, job.layout.totalSheets)
    ensures |requests| == |done| + 1
    ensures SequentialPrefix(job, pageCount, requests) && Rendered(job, requests, sides)
    ensures cursor == MinInt(SideStart(|requests|, job.layout.rows * job.layout.cols), pageCount)
  {
    var j := |done|;
    var rows, cols, rot := job.layout.rows as nat, job.layout.cols as nat, job.layout.cellRotation;
    var nUp: nat := rows * cols;
    ghost var start: nat := SideStart(j, nUp);
    assert SideStart(j + 1, nUp) == start + nUp;
    if pageCursor >= pageCount {
      SequentialGridPastEnd(rows, cols, pageCursor, start, pageCount, rot);
    }
    var grid;
    grid, cursor := FillSequential(rows, cols, pageCursor, pageCount, rot);
    var request := SideRequest(grid, duplexBack, sheetNum, job.layout.totalSheets);
    var side := RenderSide(job, request);
    SequentialPrefixExtends(job, pageCount, done, request);
    RenderedExtends(job, done, doneSides, [request], [side]);
    requests, sides := done + [request], doneSides + [side];
  }

  /** Side `j` of a sequential job has `rows * cols` cells, slot `k` showing the
      page `j * nUp + k` while pages remain. */
  lemma SequentialRequestPages(job: Job, pageCount: nat, j: nat, k: nat)
    requires ValidJob(job) && j < |SequentialRequests(job, pageCount)|
    ensures |SequentialRequests(job, pageCount)[j].cells| == job.layout.rows * job.layout.cols
    ensures k < job.layout.rows * job.layout.cols ==>
              SequentialRequests(job, pageCount)[j].cells[k].pageIndex ==
              SheetSlotPage(j, k, job.layout.rows * job.layout.cols, pageCount)
  {
    SideStartIsProduct(j, job.layout.rows * job.layout.cols);
  }

  /** The sides of a sequential job have room for every page. */
  lemma SequentialRequestsCover(job: Job, pageCount: nat)
    requires ValidJob(job)
    ensures |SequentialRequests(job, pageCount)| * (job.layout.rows * job.layout.cols) >= pageCount
  {
    var rows, cols := job.layout.rows as nat, job.layout.cols as nat;
    MulMono(1, rows, cols);
    var nUp: nat := rows * cols;
    var per := SidesPerSheet(job.config.duplex);
    var sheets := SequentialSheets(pageCount, job.config.duplex, nUp);
    assert (per * sheets) * nUp == sheets * (per * nUp);
  }

  /** In a sequential job every source page lands in exactly one cell of one
      side: page `p` fills slot `p % nUp` of side `p / nUp`, and no other slot. */
  lemma SequentialPlacesEachPageOnce(job: Job, pageCount: nat, p: nat)
    requires ValidJob(job) && p < pageCount
    ensures var nUp := job.layout.rows * job.layout.cols;
            nUp >= 1 && p / nUp < |SequentialRequests(job, pageCount)| &&
            p % nUp < |SequentialRequests(job, pageCount)[p / nUp].cells| &&
            SequentialRequests(job, pageCount)[p / nUp].cells[p % nUp].pageIndex == Some(p)
    ensures var nUp := job.layout.rows * job.layout.cols;
            forall j, k :: 0 <= j < |SequentialRequests(job, pageCount)| &&
                           0 <= k < |SequentialRequests(job, pageCount)[j].cells| &&
                           SequentialRequests(job, pageCount)[j].cells[k].pageIndex == Some(p) ==>
              j == p / nUp && k == p % nUp
  {
    MulMono(1, job.layout.rows, job.layout.cols);
    var nUp: nat := job.layout.rows * job.layout.cols;
    var n := |SequentialRequests(job, pageCount)|;
    SequentialRequestsCover(job, pageCount);
    SequentialPagePlaced(nUp, n, pageCount, p);
    SequentialRequestPages(job, pageCount, p / nUp, p % nUp);
    forall j, k | 0 <= j < n && 0 <= k < |SequentialRequests(job, pageCount)[j].cells| &&
                  SequentialRequests(job, pageCount)[j].cells[k].pageIndex == Some(p)
      ensures j == p / nUp && k == p % nUp
    {
      SequentialRequestPages(job, pageCount, j, k);
      SequentialPageUnique(nUp, pageCount, p, j, k);
    }
  }

  /** With duplex, side `2 s` is the front and side `2 s + 1` the back of sheet
      `s`, and every page on a sheet's front comes before every page on its back. */
  lemma SequentialFrontBeforeBack(job: Job, pageCount: nat, s: nat, a: nat, b: nat)
    requires ValidJob(job) && job.config.duplex
    requires 2 * s + 1 < |SequentialRequests(job, pageCount)|
    requires a < |SequentialRequests(job, pageCount)[2 * s].cells| && b < |SequentialRequests(job, pageCount)[2 * s + 1].cells|
    requires SequentialRequests(job, pageCount)[2 * s].cells[a].pageIndex.Some?
    requires SequentialRequests(job, pageCount)[2 * s + 1].cells[b].pageIndex.Some?
    ensures !SequentialRequests(job, pageCount)[2 * s].duplexBack && SequentialRequests(job, pageCount)[2 * s + 1].duplexBack
    ensures SequentialRequests(job, pageCount)[2 * s].sheetNum == SequentialRequests(job, pageCount)[2 * s + 1].sheetNum
    ensures SequentialRequests(job, pageCount)[2 * s].cells[a].pageIndex.value <
            SequentialRequests(job, pageCount)[2 * s + 1].cells[b].pageIndex.value
  {
    var rows, cols := job.layout.rows as nat, job.layout.cols as nat;
    var nUp: nat := rows * cols;
    var front := SequentialRequest(job, pageCount, 2 * s);
    var back := SequentialRequest(job, pageCount, 2 * s + 1);
    assert SequentialRequests(job, pageCount)[2 * s] == front;
    assert SequentialRequests(job, pageCount)[2 * s + 1] == back;
    SideStartIsProduct(2 * s, nUp);
    SideStartIsProduct(2 * s + 1, nUp);
    assert (2 * s + 1) * nUp == (2 * s) * nUp + nUp;
    assert |front.cells| == nUp;
    assert front.cells[a].pageIndex == SequentialPage(SideStart(2 * s, nUp), a, pageCount);
    assert back.cells[b].pageIndex == SequentialPage(SideStart(2 * s + 1, nUp), b, pageCount);
  }

  // ---------------------------------------------------------------- saddle stitch

  /** The back of a booklet sheet reads right to left: each cell's column is
      mirrored to `cols - 1 - col`. */
  function MirrorColumns(grid: seq<GridCell>, cols: int): (r: seq<GridCell>)
    ensures |r| == |grid|
    ensures forall i :: 0 <= i < |grid| ==> r[i] == grid[i].(col := (cols - 1) - grid[i].col)
  {
    seq(|grid|, i requires 0 <= i < |grid| => grid[i].(col := (cols - 1) - grid[i].col))
  }

  /** Mirroring the columns twice gives the cells back. */
  lemma MirrorColumnsInvolution(grid: seq<GridCell>, cols: int)
    ensures MirrorColumns(MirrorColumns(grid, cols), cols) == grid
  {
  }

  /** Side `j` of a booklet: the front (even `j`) or the column-mirrored back
      (odd `j`) of sheet `j / 2`, both placed without duplex mirroring. */
  function SaddleRequest(job: Job, sheets: seq<SaddleSheet>, j: nat): SideRequest
    requires ValidJob(job) && j < 2 * |sheets|
  {
    var cols, rot := job.layout.cols as nat, job.layout.cellRotation;
    var sh := sheets[j / 2];
    if j % 2 == 0 then SideRequest(SideCells(sh.front, cols, rot), false, j / 2 + 1, |sheets|)
    else SideRequest(MirrorColumns(SideCells(sh.back, cols, rot), cols), false, j / 2 + 1, |sheets|)
  }

  function SaddleRequests(job: Job, pageCount: nat): seq<SideRequest>
    requires ValidJob(job)
  {
    var sheets := SaddleSheets(pageCount);
    seq(2 * |sheets|, j requires 0 <= j < 2 * |sheets| => SaddleRequest(job, sheets, j))
  }

  /** The column flip of `_build_saddle_stitch`, cell by cell. */
  method MirrorBackColumns(grid: seq<GridCell>, cols: int) returns (r: seq<GridCell>)
    ensures r == MirrorColumns(grid, cols)
  {
    r := grid;
    for i := 0 to |r|
      invariant |r| == |grid|
      invariant forall k :: 0 <= k < i ==> r[k] == grid[k].(col := (cols - 1) - grid[k].col)
      invariant forall k :: i <= k < |r| ==> r[k] == grid[k]
    {
      r := r[i := r[i].(col := (cols - 1) - r[i].col)];
    }
  }

  /** `_build_saddle_stitch`: the sides it emits, in order, and what each was made
      from. */
  method BuildSaddleStitch(job: Job, pageCount: nat) returns (requests: seq<SideRequest>, sides: seq<Side>)
    requires ValidJob(job)
    ensures requests == SaddleRequests(job, pageCount)
    ensures |sides| == |requests| && forall j :: 0 <= j < |sides| ==> sides[j] == Render(job, requests[j])
  {
    var sheetsData := GetSaddleStitchSheets(pageCount);
    requests, sides := [], [];
    for i := 0 to |sheetsData|
      invariant |requests| == 2 * i
      invariant SaddlePrefix(job, sheetsData, requests) && Rendered(job, requests, sides)
    {
      requests, sides := SaddleNextSheet(job, sheetsData, i, requests, sides);
    }
    SaddleRequestsFrom(job, pageCount, requests);
  }

  /** A prefix as long as the booklet is the booklet. */
  lemma SaddleRequestsFrom(job: Job, pageCount: nat, requests: seq<SideRequest>)
    requires ValidJob(job) && SaddlePrefix(job, SaddleSheets(pageCount), requests)
    requires |requests| == 2 * |SaddleSheets(pageCount)|
    ensures requests == SaddleRequests(job, pageCount)
  {
  }

  /** The sides made so far are the first sides of the booklet. */
  predicate SaddlePrefix(job: Job, sheets: seq<SaddleSheet>, requests: seq<SideRequest>)
    requires ValidJob(job)
  {
    |requests| <= 2 * |sheets| && forall j :: 0 <= j < |requests| ==> requests[j] == SaddleRequest(job, sheets, j)
  }

  /** Appending the two sides of the next sheet keeps the prefix. */
  lemma SaddlePrefixExtends(job: Job, sheets: seq<SaddleSheet>, requests: seq<SideRequest>, front: SideRequest, back: SideRequest)
    requires ValidJob(job) && SaddlePrefix(job, sheets, requests)
    requires |requests| % 2 == 0 && |requests| < 2 * |sheets|
    requires front == SaddleRequest(job, sheets, |requests|) && back == SaddleRequest(job, sheets, |requests| + 1)
    ensures SaddlePrefix(job, sheets, requests + [front, back])
  {
    var more := requests + [front, back];
    forall j | 0 <= j < |more| ensures more[j] == SaddleRequest(job, sheets, j) {
      if j < |requests| {
        assert more[j] == requests[j];
      }
    }
  }

  /** One pass of the sheet loop of `_build_saddle_stitch`, appending the two
      sides of sheet `i` to those made so far. */
  method SaddleNextSheet(job: Job, sheetsData: seq<SaddleSheet>, i: nat,
                         done: seq<SideRequest>, doneSides: seq<Side>)
    returns (requests: seq<SideRequest>, sides: seq<Side>)
    requires ValidJob(job) && i < |sheetsData| && |done| == 2 * i
    requires SaddlePrefix(job, sheetsData, done) && Rendered(job, done, doneSides)
    ensures |requests| == 2 * i + 2
    ensures SaddlePrefix(job, sheetsData, requests) && Rendered(job, requests, sides)
  {
    var front, back, frontSide, backSide := SaddleSheetSides(job, sheetsData, i);
    SaddlePrefixExtends(job, sheetsData, done, front, back);
    RenderedExtends(job, done, doneSides, [front, back], [frontSide, backSide]);
    requests, sides := done + [front, back], doneSides + [frontSide, backSide];
  }

  /** The body of the sheet loop of `_build_saddle_stitch`. */
  method SaddleSheetSides(job: Job, sheetsData: seq<SaddleSheet>, i: nat)
    returns (front: SideRequest, back: SideRequest, frontSide: Side, backSide: Side)
    requires ValidJob(job) && i < |sheetsData|
    ensures front == SaddleRequest(job, sheetsData, 2 * i) && back == SaddleRequest(job, sheetsData, 2 * i + 1)
    ensures frontSide == Render(job, front) && backSide == Render(job, back)
  {
    var cols, rot := job.layout.cols as nat, job.layout.cellRotation;
    var frontGrid := FillSide(sheetsData[i].front, cols, rot);
    front := SideRequest(frontGrid, false, i + 1, |sheetsData|);
    frontSide := RenderSide(job, front);
    var backGrid := FillSide(sheetsData[i].back, cols, rot);
    backGrid := MirrorBackColumns(backGrid, cols);
    back := SideRequest(backGrid, false, i + 1, |sheetsData|);
    backSide := RenderSide(job, back);
  }

  /** Slot `k` of booklet side `j` is slot `2 (j % 2) + k` of sheet `j / 2`, and a
      back side's cell `k` sits in column `cols - 1 - k % cols`. */
  lemma SaddleSideSlots(job: Job, pageCount: nat, j: nat, k: nat)
    requires ValidJob(job) && j < |SaddleRequests(job, pageCount)|
    ensures |SaddleRequests(job, pageCount)[j].cells| == 2
    ensures k < 2 ==> SaddleRequests(job, pageCount)[j].cells[k].pageIndex ==
                      SlotOfSheet(SaddleSheets(pageCount)[j / 2], 2 * (j % 2) + k)
    ensures j % 2 == 1 && k < 2 ==>
              SaddleRequests(job, pageCount)[j].cells[k].col == (job.layout.cols - 1) - k % job.layout.cols
  {
  }

  /** In a booklet every source page lands in exactly one cell of one side. */
  lemma SaddlePlacesEachPageOnce(job: Job, pageCount: nat, p: nat)
    requires ValidJob(job) && p < pageCount
    ensures exists j, k :: 0 <= j < |SaddleRequests(job, pageCount)| && 0 <= k < |SaddleRequests(job, pageCount)[j].cells| &&
                           SaddleRequests(job, pageCount)[j].cells[k].pageIndex == Some(p)
    ensures forall j, k, j2, k2 ::
              (0 <= j < |SaddleRequests(job, pageCount)| && 0 <= k < |SaddleRequests(job, pageCount)[j].cells| &&
               SaddleRequests(job, pageCount)[j].cells[k].pageIndex == Some(p) &&
               0 <= j2 < |SaddleRequests(job, pageCount)| && 0 <= k2 < |SaddleRequests(job, pageCount)[j2].cells| &&
               SaddleRequests(job, pageCount)[j2].cells[k2].pageIndex == Some(p)) ==>
              j == j2 && k == k2
  {
    var requests := SaddleRequests(job, pageCount);
    var sheets := SaddleSheets(pageCount);
    SaddleSheetsPlaceEachPageOnce(pageCount, p);
    var i, s :| 0 <= i < |sheets| && 0 <= s < 4 && SlotOfSheet(sheets[i], s) == Some(p);
    var j := 2 * i + s / 2;
    SaddleSideSlots(job, pageCount, j, s % 2);
    assert requests[j].cells[s % 2].pageIndex == Some(p);
    forall j, k, j2, k2 |
        0 <= j < |requests| && 0 <= k < |requests[j].cells| && requests[j].cells[k].pageIndex == Some(p) &&
        0 <= j2 < |requests| && 0 <= k2 < |requests[j2].cells| && requests[j2].cells[k2].pageIndex == Some(p)
      ensures j == j2 && k == k2
    {
      SaddleSlotUnique(job, pageCount, p, j, k, j2, k2);
    }
  }

  /** Two booklet slots showing the same page are the same slot. */
  lemma SaddleSlotUnique(job: Job, pageCount: nat, p: nat, j: nat, k: nat, j2: nat, k2: nat)
    requires ValidJob(job) && p < pageCount
    requires j < |SaddleRequests(job, pageCount)| && k < |SaddleRequests(job, pageCount)[j].cells|
    requires j2 < |SaddleRequests(job, pageCount)| && k2 < |SaddleRequests(job, pageCount)[j2].cells|
    requires SaddleRequests(job, pageCount)[j].cells[k].pageIndex == Some(p)
    requires SaddleRequests(job, pageCount)[j2].cells[k2].pageIndex == Some(p)
    ensures j == j2 && k == k2
  {
    var sheets := SaddleSheets(pageCount);
    SaddleSideSlots(job, pageCount, j, k);
    SaddleSideSlots(job, pageCount, j2, k2);
    SaddleSheetsPlaceEachPageOnce(pageCount, p);
    assert j / 2 < |sheets| && j2 / 2 < |sheets|;
    assert SlotOfSheet(sheets[j / 2], 2 * (j % 2) + k) == Some(p);
    assert SlotOfSheet(sheets[j2 / 2], 2 * (j2 % 2) + k2) == Some(p);
    assert j / 2 == j2 / 2 && 2 * (j % 2) + k == 2 * (j2 % 2) + k2;
  }

  // ---------------------------------------------------------------- source page boxes

  /** A source page as assembly reads it: its media box and, when it declares one,
      its trim box, in points. */
  datatype SourcePage = SourcePage(mediaBox: PdfBox, trimBox: Option<PdfBox>)

  /** What `_get_source_page_boxes_pt` returns: each box's lower-left corner and
      size, in points. */
  datatype PageBoxes = PageBoxes(mediaX: real, mediaY: real, mediaW: real, mediaH: real,
                                 trimX: real, trimY: real, trimW: real, trimH: real)

  /** A box read as its smaller corner and its absolute extents; without a trim
      box the media box serves as trim. */
  function SourcePageBoxes(page: SourcePage): (b: PageBoxes)
    ensures b.mediaW >= 0.0 && b.mediaH >= 0.0 && b.trimW >= 0.0 && b.trimH >= 0.0
    ensures var m := page.mediaBox;
            b.mediaX == Min(m.x0, m.x1) && b.mediaX + b.mediaW == Max(m.x0, m.x1) &&
            b.mediaY == Min(m.y0, m.y1) && b.mediaY + b.mediaH == Max(m.y0, m.y1)
    ensures page.trimBox.Some? ==>
              var t := page.trimBox.value;
              b.trimX == Min(t.x0, t.x1) && b.trimX + b.trimW == Max(t.x0, t.x1) &&
              b.trimY == Min(t.y0, t.y1) && b.trimY + b.trimH == Max(t.y0, t.y1)
    ensures page.trimBox.None? ==> b.trimX == b.mediaX && b.trimY == b.mediaY && b.trimW == b.mediaW && b.trimH == b.mediaH
  {
    var m := page.mediaBox;
    var mediaX, mediaY, mediaW, mediaH := Min(m.x0, m.x1), Min(m.y0, m.y1), Abs(m.x1 - m.x0), Abs(m.y1 - m.y0);
    if page.trimBox.Some? then
      var t := page.trimBox.value;
      PageBoxes(mediaX, mediaY, mediaW, mediaH, Min(t.x0, t.x1), Min(t.y0, t.y1), Abs(t.x1 - t.x0), Abs(t.y1 - t.y0))
    else PageBoxes(mediaX, mediaY, mediaW, mediaH, mediaX, mediaY, mediaW, mediaH)
  }

  function Swapped(b: PdfBox): PdfBox
  {
    PdfBox(b.x1, b.y1, b.x0, b.y0)
  }

  /** The boxes read do not depend on which corner a box lists first. */
  lemma SourcePageBoxesCornerOrder(page: SourcePage)
    ensures SourcePageBoxes(SourcePage(Swapped(page.mediaBox), page.trimBox)) == SourcePageBoxes(page)
    ensures page.trimBox.Some? ==>
              SourcePageBoxes(SourcePage(page.mediaBox, Some(Swapped(page.trimBox.value)))) == SourcePageBoxes(page)
  {
  }

  /** The page a source page is for assembly, once analysis has found its media
      box: the media box and the page's own /TrimBox entry. */
  function SourceOf(raw: RawPage): SourcePage
    requires raw.mediaBox.Some?
  {
    SourcePage(raw.mediaBox.value, raw.ownTrimBox)
  }

  /** The media box assembly reads in points is, in millimetres, the one the
      analysis recorded. So is the trim, when the page declares its own /TrimBox
      or declares none and the analysis found none either. A page without its own
      /TrimBox is trimmed to its media box, whatever trim the analysis found for
      it. */
  lemma SourceBoxesAgreeWithAnalysis(raw: RawPage)
    requires raw.mediaBox.Some? && BoxesRead(raw)
    ensures var b := SourcePageBoxes(SourceOf(raw));
            PdfRectToMm(raw.mediaBox.value) == Rectangle(PtToMm(b.mediaX), PtToMm(b.mediaY), PtToMm(b.mediaW), PtToMm(b.mediaH))
    ensures var b := SourcePageBoxes(SourceOf(raw));
            raw.ownTrimBox.Some? || raw.trimBox.None? ==>
              PageTrim(raw) == Rectangle(PtToMm(b.trimX), PtToMm(b.trimY), PtToMm(b.trimW), PtToMm(b.trimH))
    ensures var b := SourcePageBoxes(SourceOf(raw));
            raw.ownTrimBox.None? ==>
              (b.trimX, b.trimY, b.trimW, b.trimH) == (b.mediaX, b.mediaY, b.mediaW, b.mediaH)
  {
  }

  // ---------------------------------------------------------------- placement

  /** A PDF transformation matrix `[a b c d e f]`. */
  datatype Matrix = Matrix(a: real, b: real, c: real, d: real, e: real, f: real)

  /** Where the matrix sends the point `(x, y)`. */
  function Apply(m: Matrix, x: real, y: real): (real, real)
  {
    (m.a * x + m.c * y + m.e, m.b * x + m.d * y + m.f)
  }

  /** The matrix that draws a source page into a cell at `(targetX, targetY)` on the
      sheet, unscaled, turned by the cell's rotation; `targetW` and `targetH` are the
      cell's trim size on the sheet, in points. */
  function PlacementMatrix(rotation: int, targetX: real, targetY: real, src: PageBoxes, targetW: real, targetH: real): Matrix
  {
    if rotation == 90 then Matrix(0.0, 1.0, -1.0, 0.0, targetX + src.trimY + targetW, targetY - src.trimX)
    else if rotation == 180 then Matrix(-1.0, 0.0, 0.0, -1.0, targetX + src.trimX + src.trimW, targetY + src.trimY + src.trimH)
    else if rotation == 270 then Matrix(0.0, -1.0, 1.0, 0.0, targetX - src.trimY, targetY + src.trimX + targetH)
    else Matrix(1.0, 0.0, 0.0, 1.0, targetX - src.trimX, targetY - src.trimY)
  }

  predicate QuarterTurn(rotation: int)
  {
    rotation == 90 || rotation == 270
  }

  function SourceTrimRect(src: PageBoxes): Rectangle
  {
    Rectangle(src.trimX, src.trimY, src.trimW, src.trimH)
  }

  /** Where the source trim lands on the sheet. Upright and upside down it starts at
      the cell's trim origin. Turned 90 degrees it ends at the cell's right edge;
      turned 270 degrees it ends at the cell's top edge. */
  function TrimImage(rotation: int, targetX: real, targetY: real, src: PageBoxes, targetW: real, targetH: real): Rectangle
  {
    if rotation == 90 then Rectangle(targetX + targetW - src.trimH, targetY, src.trimH, src.trimW)
    else if rotation == 270 then Rectangle(targetX, targetY + targetH - src.trimW, src.trimH, src.trimW)
    else Rectangle(targetX, targetY, src.trimW, src.trimH)
  }

  /** The placement matrix maps the source trim onto `TrimImage`: a point lies in
      the source trim exactly when its image lies in that rectangle. */
  lemma PlacementMapsTrim(rotation: int, targetX: real, targetY: real, src: PageBoxes, targetW: real, targetH: real,
                          x: real, y: real)
    requires src.trimW >= 0.0 && src.trimH >= 0.0
    ensures var m := PlacementMatrix(rotation, targetX, targetY, src, targetW, targetH);
            PointInRect(x, y, SourceTrimRect(src)) <==>
            PointInRect(Apply(m, x, y).0, Apply(m, x, y).1, TrimImage(rotation, targetX, targetY, src, targetW, targetH))
  {
  }

  /** Upright the source trim origin lands on the cell's trim origin; upside down
      the trim's far corner does; a quarter turn puts the turned trim exactly on the
      cell when the cell's trim is the source trim turned. */
  lemma PlacementAlignsTrim(rotation: int, targetX: real, targetY: real, src: PageBoxes, targetW: real, targetH: real)
    ensures rotation !in {90, 180, 270} ==>
              Apply(PlacementMatrix(rotation, targetX, targetY, src, targetW, targetH), src.trimX, src.trimY) == (targetX, targetY)
    ensures rotation == 180 ==>
              Apply(PlacementMatrix(rotation, targetX, targetY, src, targetW, targetH), src.trimX + src.trimW, src.trimY + src.trimH) ==
              (targetX, targetY)
    ensures !QuarterTurn(rotation) ==>
              TrimImage(rotation, targetX, targetY, src, targetW, targetH) == Rectangle(targetX, targetY, src.trimW, src.trimH)
    ensures QuarterTurn(rotation) && targetW == src.trimH && targetH == src.trimW ==>
              TrimImage(rotation, targetX, targetY, src, targetW, targetH) == Rectangle(targetX, targetY, targetW, targetH)
  {
  }

  /** The clip rectangle in points: the cell's own, else its trim rectangle. */
  function ClipInPoints(cell: GridCell, targetX: real, targetY: real, targetW: real, targetH: real): Rectangle
  {
    if cell.clipRect.Some? then
      var c := cell.clipRect.value;
      Rectangle(MmToPt(c.x), MmToPt(c.y), MmToPt(c.width), MmToPt(c.height))
    else Rectangle(targetX, targetY, targetW, targetH)
  }

  /** A clip that covers the cell's trim in millimetres still covers it in points,
      so clipping never hides part of the trim. */
  lemma ClipCoversCellTrim(cell: GridCell, effW: real, effH: real)
    requires cell.clipRect.Some? ==> Contains(cell.clipRect.value, TrimRect(cell, effW, effH))
    ensures Contains(ClipInPoints(cell, MmToPt(cell.trimOriginX), MmToPt(cell.trimOriginY), MmToPt(effW), MmToPt(effH)),
                     Rectangle(MmToPt(cell.trimOriginX), MmToPt(cell.trimOriginY), MmToPt(effW), MmToPt(effH)))
  {
    if cell.clipRect.Some? {
      var c := cell.clipRect.value;
      assert c.x <= cell.trimOriginX && cell.trimOriginX + effW <= c.x + c.width;
      assert c.y <= cell.trimOriginY && cell.trimOriginY + effH <= c.y + c.height;
    }
  }

  // ---------------------------------------------------------------- sheet assembly

  /** One source page drawn on the sheet: the page, the name of its form XObject,
      and the clip and matrix of its content operation. */
  datatype Placement = Placement(page: nat, name: string, clip: Rectangle, matrix: Matrix)

  /** An assembled sheet side: its media box size in points, the form XObjects it
      defines (name and source page, in creation order), the page placements in
      grid order, and the marks drawn over them. */
  datatype SheetPage = SheetPage(width: real, height: real, xobjects: seq<(string, nat)>, placements: seq<Placement>,
                                 marks: seq<MarkObject>)

  /** The loop state of `_assemble_pikepdf_sheet`. */
  datatype Assembly = Assembly(cache: map<nat, string>, counter: nat, xobjects: seq<(string, nat)>, placements: seq<Placement>)

  function XObjectName(k: nat): string
  {
    "P" + NatToString(k)
  }

  lemma XObjectNamesDistinct(k1: nat, k2: nat)
    requires k1 != k2
    ensures XObjectName(k1) != XObjectName(k2)
  {
    if XObjectName(k1) == XObjectName(k2) {
      assert NatToString(k1) == XObjectName(k1)[1..];
      NatToStringInjective(k1, k2);
    }
  }

  /** The cells that get drawn: those with a page the source has. */
  predicate Drawn(cell: GridCell, pageCount: nat)
  {
    cell.pageIndex.Some? && cell.pageIndex.value < pageCount
  }

  /** The placement of one drawn cell, under a given XObject name. */
  function PlacementOf(cell: GridCell, name: string, sources: seq<SourcePage>, targetW: real, targetH: real): Placement
    requires Drawn(cell, |sources|)
  {
    var p := cell.pageIndex.value;
    var tx, ty := MmToPt(cell.trimOriginX), MmToPt(cell.trimOriginY);
    Placement(p, name, ClipInPoints(cell, tx, ty, targetW, targetH),
              PlacementMatrix(cell.rotation, tx, ty, SourcePageBoxes(sources[p]), targetW, targetH))
  }

  /** One pass of the cell loop: skip the cell, or draw it, making its page's
      XObject first when the page has none yet. */
  function AssembleStep(st: Assembly, cell: GridCell, sources: seq<SourcePage>, targetW: real, targetH: real): Assembly
  {
    if !Drawn(cell, |sources|) then st
    else
      var p := cell.pageIndex.value;
      if p in st.cache then
        st.(placements := st.placements + [PlacementOf(cell, st.cache[p], sources, targetW, targetH)])
      else
        var name := XObjectName(st.counter);
        Assembly(st.cache[p := name], st.counter + 1, st.xobjects + [(name, p)],
                 st.placements + [PlacementOf(cell, name, sources, targetW, targetH)])
  }

  function AssembleCells(grid: seq<GridCell>, sources: seq<SourcePage>, targetW: real, targetH: real): Assembly
  {
    if |grid| == 0 then Assembly(map[], 0, [], [])
    else AssembleStep(AssembleCells(grid[..|grid| - 1], sources, targetW, targetH), grid[|grid| - 1], sources, targetW, targetH)
  }

  /** The sheet `_assemble_pikepdf_sheet` appends for a side: the oriented sheet size
      in points, one placement per drawn cell, and the side's marks on top. */
  function AssembledSheet(side: Side, sources: seq<SourcePage>, sheet: SheetConfig, effW: real, effH: real): SheetPage
  {
    var size := OrientSheet(sheet);
    var st := AssembleCells(side.grid, sources, MmToPt(effW), MmToPt(effH));
    SheetPage(MmToPt(size.0), MmToPt(size.1), st.xobjects, st.placements, side.marks)
  }

  /** `_assemble_pikepdf_sheet`: walks the cells with the XObject cache and counter. */
  method AssembleSheet(side: Side, sources: seq<SourcePage>, sheet: SheetConfig, effW: real, effH: real)
    returns (page: SheetPage)
    ensures page == AssembledSheet(side, sources, sheet, effW, effH)
  {
    var size := OrientSheet(sheet);
    var targetW, targetH := MmToPt(effW), MmToPt(effH);
    var xobjCache: map<nat, string> := map[];
    var xobjCounter: nat := 0;
    var xobjects: seq<(string, nat)> := [];
    var placements: seq<Placement> := [];
    var grid := side.grid;
    for i := 0 to |grid|
      invariant Assembly(xobjCache, xobjCounter, xobjects, placements) == AssembleCells(grid[..i], sources, targetW, targetH)
    {
      assert grid[..i + 1][..i] == grid[..i];
      var cell := grid[i];
      if cell.pageIndex.None? {
        continue;
      }
      if cell.pageIndex.value >= |sources| {
        continue;
      }
      var p := cell.pageIndex.value;
      var name;
      if p !in xobjCache {
        name := XObjectName(xobjCounter);
        xobjCounter := xobjCounter + 1;
        xobjects := xobjects + [(name, p)];
        xobjCache := xobjCache[p := name];
      } else {
        name := xobjCache[p];
      }
      var boxes := SourcePageBoxes(sources[p]);
      var targetX, targetY := MmToPt(cell.trimOriginX), MmToPt(cell.trimOriginY);
      var clip := ClipInPoints(cell, targetX, targetY, targetW, targetH);
      var matrix := PlacementMatrix(cell.rotation, targetX, targetY, boxes, targetW, targetH);
      placements := placements + [Placement(p, name, clip, matrix)];
    }
    assert grid[..|grid|] == grid;
    page := SheetPage(MmToPt(size.0), MmToPt(size.1), xobjects, placements, side.marks);
  }

  /** The drawn cells of a grid, in order. */
  function DrawnCells(grid: seq<GridCell>, pageCount: nat): (r: seq<GridCell>)
    ensures forall i :: 0 <= i < |r| ==> Drawn(r[i], pageCount)
  {
    if |grid| == 0 then []
    else DrawnCells(grid[..|grid| - 1], pageCount) + (if Drawn(grid[|grid| - 1], pageCount) then [grid[|grid| - 1]] else [])
  }

  /** The cache names each page of an XObject after its position in creation
      order, every page at most once, and every placement uses its page's name. */
  predicate CacheConsistent(st: Assembly)
  {
    st.counter == |st.xobjects| && NamesInOrder(st.xobjects) && PagesDistinct(st.xobjects) &&
    CacheNamesXObjects(st.cache, st.xobjects) && XObjectsCoverCache(st.cache, st.xobjects) &&
    PlacementsNamed(st.cache, st.placements)
  }

  /** The `k`-th XObject made is named `P<k>`. */
  predicate NamesInOrder(xobjects: seq<(string, nat)>)
  {
    forall k :: 0 <= k < |xobjects| ==> xobjects[k].0 == XObjectName(k)
  }

  /** No source page has two XObjects. */
  predicate PagesDistinct(xobjects: seq<(string, nat)>)
  {
    forall k1, k2 :: 0 <= k1 < k2 < |xobjects| ==> xobjects[k1].1 != xobjects[k2].1
  }

  /** The cache maps the page of every XObject to its name. */
  predicate CacheNamesXObjects(cache: map<nat, string>, xobjects: seq<(string, nat)>)
  {
    forall k :: 0 <= k < |xobjects| ==> xobjects[k].1 in cache && cache[xobjects[k].1] == xobjects[k].0
  }

  /** Every cached page has its XObject. */
  predicate XObjectsCoverCache(cache: map<nat, string>, xobjects: seq<(string, nat)>)
  {
    forall p :: p in cache ==> exists k :: 0 <= k < |xobjects| && xobjects[k] == (cache[p], p)
  }

  /** Every placement uses its page's cached name. */
  predicate PlacementsNamed(cache: map<nat, string>, placements: seq<Placement>)
  {
    forall i :: 0 <= i < |placements| ==> placements[i].page in cache && placements[i].name == cache[placements[i].page]
  }

  /** Each placement draws the drawn cell at its index as `PlacementOf` says, under
      the name it carries. */
  predicate PlacedAs(placements: seq<Placement>, drawn: seq<GridCell>, sources: seq<SourcePage>,
                     targetW: real, targetH: real)
  {
    |placements| == |drawn| &&
    forall i :: 0 <= i < |drawn| ==>
      Drawn(drawn[i], |sources|) && placements[i] == PlacementOf(drawn[i], placements[i].name, sources, targetW, targetH)
  }

  /** One placement per drawn cell, in grid order, drawn as `PlacementOf` says under
      its page's XObject name; and the cache stays consistent. */
  lemma {:induction false} AssembleCellsInvariant(grid: seq<GridCell>, sources: seq<SourcePage>, targetW: real, targetH: real)
    ensures CacheConsistent(AssembleCells(grid, sources, targetW, targetH))
    ensures PlacedAs(AssembleCells(grid, sources, targetW, targetH).placements, DrawnCells(grid, |sources|),
                     sources, targetW, targetH)
  {
    if |grid| > 0 {
      var prefix := grid[..|grid| - 1];
      AssembleCellsInvariant(prefix, sources, targetW, targetH);
      AssembleStepKeeps(AssembleCells(prefix, sources, targetW, targetH), grid[|grid| - 1], sources, targetW, targetH,
                        DrawnCells(prefix, |sources|));
    }
  }

  lemma AssembleStepKeeps(st: Assembly, cell: GridCell, sources: seq<SourcePage>, targetW: real, targetH: real,
                          drawn: seq<GridCell>)
    requires CacheConsistent(st) && PlacedAs(st.placements, drawn, sources, targetW, targetH)
    ensures CacheConsistent(AssembleStep(st, cell, sources, targetW, targetH))
    ensures PlacedAs(AssembleStep(st, cell, sources, targetW, targetH).placements,
                     drawn + (if Drawn(cell, |sources|) then [cell] else []), sources, targetW, targetH)
  {
    if Drawn(cell, |sources|) {
      AssembleStepConsistent(st, cell, sources, targetW, targetH);
      var pl := AssembleStepAppends(st, cell, sources, targetW, targetH);
      PlacedAsAppend(st.placements, drawn, pl, cell, sources, targetW, targetH);
    } else {
      assert drawn + [] == drawn;
    }
  }

  /** Drawing a cell appends one placement of it. */
  lemma AssembleStepAppends(st: Assembly, cell: GridCell, sources: seq<SourcePage>, targetW: real, targetH: real)
    returns (pl: Placement)
    requires Drawn(cell, |sources|)
    ensures AssembleStep(st, cell, sources, targetW, targetH).placements == st.placements + [pl]
    ensures pl == PlacementOf(cell, pl.name, sources, targetW, targetH)
  {
    var p := cell.pageIndex.value;
    pl := PlacementOf(cell, if p in st.cache then st.cache[p] else XObjectName(st.counter), sources, targetW, targetH);
  }

  /** Appending a placement of the next drawn cell keeps `PlacedAs`. */
  lemma PlacedAsAppend(placements: seq<Placement>, drawn: seq<GridCell>, pl: Placement, cell: GridCell,
                       sources: seq<SourcePage>, targetW: real, targetH: real)
    requires PlacedAs(placements, drawn, sources, targetW, targetH) && Drawn(cell, |sources|)
    requires pl == PlacementOf(cell, pl.name, sources, targetW, targetH)
    ensures PlacedAs(placements + [pl], drawn + [cell], sources, targetW, targetH)
  {
    var ps, ds := placements + [pl], drawn + [cell];
    forall i | 0 <= i < |ds|
      ensures Drawn(ds[i], |sources|) && ps[i] == PlacementOf(ds[i], ps[i].name, sources, targetW, targetH)
    {
      if i < |drawn| {
        assert ps[i] == placements[i] && ds[i] == drawn[i];
      }
    }
  }

  /** Drawing a cell keeps the cache consistent. */
  lemma AssembleStepConsistent(st: Assembly, cell: GridCell, sources: seq<SourcePage>, targetW: real, targetH: real)
    requires CacheConsistent(st) && Drawn(cell, |sources|)
    ensures CacheConsistent(AssembleStep(st, cell, sources, targetW, targetH))
  {
    var p := cell.pageIndex.value;
    if p in st.cache {
      CachedPageConsistent(st, PlacementOf(cell, st.cache[p], sources, targetW, targetH));
    } else {
      NewPageConsistent(st, PlacementOf(cell, XObjectName(st.counter), sources, targetW, targetH));
    }
  }

  /** Placing a page that already has an XObject, under its name. */
  lemma CachedPageConsistent(st: Assembly, pl: Placement)
    requires CacheConsistent(st) && pl.page in st.cache && pl.name == st.cache[pl.page]
    ensures CacheConsistent(st.(placements := st.placements + [pl]))
  {
    PlacementsNamedAppend(st.cache, st.placements, pl);
  }

  /** Placing a page with no XObject yet, under the next name. */
  lemma NewPageConsistent(st: Assembly, pl: Placement)
    requires CacheConsistent(st) && pl.page !in st.cache && pl.name == XObjectName(st.counter)
    ensures CacheConsistent(Assembly(st.cache[pl.page := pl.name], st.counter + 1, st.xobjects + [(pl.name, pl.page)],
                                     st.placements + [pl]))
  {
    var p, name := pl.page, pl.name;
    var cache2 := st.cache[p := name];
    NewPageIsFresh(st.cache, st.xobjects, p);
    NamesInOrderAppend(st.xobjects, name, p);
    PagesDistinctAppend(st.xobjects, name, p);
    CacheNamesAppend(st.cache, st.xobjects, name, p);
    CoverCacheAppend(st.cache, st.xobjects, name, p);
    PlacementsNamedGrow(st.cache, st.placements, name, p);
    PlacementsNamedAppend(cache2, st.placements, pl);
  }

  /** A page outside the cache has no XObject yet. */
  lemma NewPageIsFresh(cache: map<nat, string>, xobjects: seq<(string, nat)>, p: nat)
    requires CacheNamesXObjects(cache, xobjects) && p !in cache
    ensures forall k :: 0 <= k < |xobjects| ==> xobjects[k].1 != p
  {
  }

  lemma NamesInOrderAppend(xobjects: seq<(string, nat)>, name: string, p: nat)
    requires NamesInOrder(xobjects) && name == XObjectName(|xobjects|)
    ensures NamesInOrder(xobjects + [(name, p)])
  {
    var xs := xobjects + [(name, p)];
    forall k | 0 <= k < |xs| ensures xs[k].0 == XObjectName(k) {
      if k < |xobjects| {
        assert xs[k] == xobjects[k];
      }
    }
  }

  lemma PagesDistinctAppend(xobjects: seq<(string, nat)>, name: string, p: nat)
    requires PagesDistinct(xobjects) && forall k :: 0 <= k < |xobjects| ==> xobjects[k].1 != p
    ensures PagesDistinct(xobjects + [(name, p)])
  {
    var xs := xobjects + [(name, p)];
    forall k1, k2 | 0 <= k1 < k2 < |xs| ensures xs[k1].1 != xs[k2].1 {
      assert xs[k1] == xobjects[k1];
      if k2 < |xobjects| {
        assert xs[k2] == xobjects[k2];
      }
    }
  }

  lemma CacheNamesAppend(cache: map<nat, string>, xobjects: seq<(string, nat)>, name: string, p: nat)
    requires CacheNamesXObjects(cache, xobjects) && forall k :: 0 <= k < |xobjects| ==> xobjects[k].1 != p
    ensures CacheNamesXObjects(cache[p := name], xobjects + [(name, p)])
  {
    var xs := xobjects + [(name, p)];
    forall k | 0 <= k < |xs| ensures xs[k].1 in cache[p := name] && cache[p := name][xs[k].1] == xs[k].0 {
      if k < |xobjects| {
        assert xs[k] == xobjects[k];
      }
    }
  }

  lemma CoverCacheAppend(cache: map<nat, string>, xobjects: seq<(string, nat)>, name: string, p: nat)
    requires XObjectsCoverCache(cache, xobjects)
    ensures XObjectsCoverCache(cache[p := name], xobjects + [(name, p)])
  {
    var cache2, xs := cache[p := name], xobjects + [(name, p)];
    forall q | q in cache2 ensures exists k :: 0 <= k < |xs| && xs[k] == (cache2[q], q) {
      if q == p {
        assert xs[|xobjects|] == (cache2[q], q);
      } else {
        var k :| 0 <= k < |xobjects| && xobjects[k] == (cache[q], q);
        assert xs[k] == (cache2[q], q);
      }
    }
  }

  /** Caching a new page keeps the names of the placements made so far. */
  lemma PlacementsNamedGrow(cache: map<nat, string>, placements: seq<Placement>, name: string, p: nat)
    requires PlacementsNamed(cache, placements) && p !in cache
    ensures PlacementsNamed(cache[p := name], placements)
  {
  }

  lemma PlacementsNamedAppend(cache: map<nat, string>, placements: seq<Placement>, pl: Placement)
    requires PlacementsNamed(cache, placements) && pl.page in cache && pl.name == cache[pl.page]
    ensures PlacementsNamed(cache, placements + [pl])
  {
    var ps := placements + [pl];
    forall i | 0 <= i < |ps| ensures ps[i].page in cache && ps[i].name == cache[ps[i].page] {
      if i < |placements| {
        assert ps[i] == placements[i];
      }
    }
  }

  /** On an assembled sheet two placements share an XObject name exactly when they
      draw the same source page, every name is `P<k>` for the `k`-th page to be
      made, and only pages the source has are drawn. */
  lemma AssembledSheetNames(side: Side, sources: seq<SourcePage>, sheet: SheetConfig, effW: real, effH: real)
    ensures var pg := AssembledSheet(side, sources, sheet, effW, effH);
            (forall i, j :: 0 <= i < |pg.placements| && 0 <= j < |pg.placements| ==>
               (pg.placements[i].name == pg.placements[j].name <==> pg.placements[i].page == pg.placements[j].page)) &&
            (forall k :: 0 <= k < |pg.xobjects| ==> pg.xobjects[k].0 == XObjectName(k)) &&
            (forall k1, k2 :: 0 <= k1 < k2 < |pg.xobjects| ==> pg.xobjects[k1].1 != pg.xobjects[k2].1) &&
            (forall i :: 0 <= i < |pg.placements| ==>
               (pg.placements[i].page < |sources| &&
                exists k :: 0 <= k < |pg.xobjects| && pg.xobjects[k] == (pg.placements[i].name, pg.placements[i].page)))
  {
    var targetW, targetH := MmToPt(effW), MmToPt(effH);
    var st := AssembleCells(side.grid, sources, targetW, targetH);
    AssembleCellsInvariant(side.grid, sources, targetW, targetH);
    var drawn := DrawnCells(side.grid, |sources|);
    forall i | 0 <= i < |st.placements| ensures st.placements[i].page < |sources| {
      assert st.placements[i] == PlacementOf(drawn[i], st.placements[i].name, sources, targetW, targetH);
    }
    forall i, j | 0 <= i < |st.placements| && 0 <= j < |st.placements|
      ensures st.placements[i].name == st.placements[j].name <==> st.placements[i].page == st.placements[j].page
    {
      var p, q := st.placements[i].page, st.placements[j].page;
      if p != q {
        var k1 :| 0 <= k1 < |st.xobjects| && st.xobjects[k1] == (st.cache[p], p);
        var k2 :| 0 <= k2 < |st.xobjects| && st.xobjects[k2] == (st.cache[q], q);
        XObjectNamesDistinct(k1, k2);
      }
    }
  }

  /** A cell is drawn, and so placed, exactly when it holds a page the source has. */
  lemma {:induction false} DrawnCellsExactly(grid: seq<GridCell>, pageCount: nat, c: GridCell)
    ensures c in DrawnCells(grid, pageCount) <==> c in grid && Drawn(c, pageCount)
  {
    if |grid| > 0 {
      DrawnCellsExactly(grid[..|grid| - 1], pageCount, c);
      assert grid == grid[..|grid| - 1] + [grid[|grid| - 1]];
    }
  }

  // ---------------------------------------------------------------- pages on the output

  function CellPages(cells: seq<GridCell>): (r: seq<Option<nat>>)
    ensures |r| == |cells| && forall i :: 0 <= i < |cells| ==> r[i] == cells[i].pageIndex
  {
    seq(|cells|, i requires 0 <= i < |cells| => cells[i].pageIndex)
  }

  /** The source pages an assembled sheet draws, one per placement. */
  function PlacedPages(pg: SheetPage): (r: seq<nat>)
    ensures |r| == |pg.placements| && forall i :: 0 <= i < |r| ==> r[i] == pg.placements[i].page
  {
    seq(|pg.placements|, i requires 0 <= i < |pg.placements| => pg.placements[i].page)
  }

  lemma {:induction false} CountThroughSome(a: seq<nat>, b: seq<Option<nat>>, p: nat)
    requires |a| == |b| && forall i :: 0 <= i < |a| ==> b[i] == Some(a[i])
    ensures multiset(a)[p] == multiset(b)[Some(p)]
  {
    if |a| > 0 {
      var n := |a| - 1;
      CountThroughSome(a[..n], b[..n], p);
      assert a == a[..n] + [a[n]] && b == b[..n] + [b[n]];
    }
  }

  /** Dropping the cells that are not drawn keeps the count of every page the
      source has. */
  lemma {:induction false} DrawnCellsKeepCounts(grid: seq<GridCell>, pageCount: nat, p: nat)
    requires p < pageCount
    ensures multiset(CellPages(DrawnCells(grid, pageCount)))[Some(p)] == multiset(CellPages(grid))[Some(p)]
  {
    if |grid| > 0 {
      var n := |grid| - 1;
      DrawnCellsKeepCounts(grid[..n], pageCount, p);
      var tail := if Drawn(grid[n], pageCount) then [grid[n]] else [];
      assert CellPages(DrawnCells(grid, pageCount)) == CellPages(DrawnCells(grid[..n], pageCount)) + CellPages(tail);
      assert CellPages(grid) == CellPages(grid[..n]) + [grid[n].pageIndex];
    }
  }

  /** An assembled sheet draws each source page as often as the side's cells hold
      it. */
  lemma SheetDrawsCellPages(side: Side, sources: seq<SourcePage>, sheet: SheetConfig, effW: real, effH: real, p: nat)
    requires p < |sources|
    ensures multiset(PlacedPages(AssembledSheet(side, sources, sheet, effW, effH)))[p] == multiset(CellPages(side.grid))[Some(p)]
  {
    var targetW, targetH := MmToPt(effW), MmToPt(effH);
    AssembleCellsInvariant(side.grid, sources, targetW, targetH);
    var pg := AssembledSheet(side, sources, sheet, effW, effH);
    var drawn := DrawnCells(side.grid, |sources|);
    forall i | 0 <= i < |pg.placements| ensures CellPages(drawn)[i] == Some(PlacedPages(pg)[i]) {
      assert pg.placements[i] == PlacementOf(drawn[i], pg.placements[i].name, sources, targetW, targetH);
    }
    CountThroughSome(PlacedPages(pg), CellPages(drawn), p);
    DrawnCellsKeepCounts(side.grid, |sources|, p);
  }

  /** A value held in exactly one slot is counted once. */
  lemma CountOfUniqueSlot(s: seq<Option<nat>>, k: nat, x: Option<nat>)
    requires k < |s| && s[k] == x && forall k2 :: 0 <= k2 < |s| && s[k2] == x ==> k2 == k
    ensures multiset(s)[x] == 1
  {
    assert s == s[..k] + [s[k]] + s[k + 1..];
    assert x !in s[..k];
    var rest := s[k + 1..];
    forall i | 0 <= i < |rest| ensures rest[i] != x {
      assert rest[i] == s[k + 1 + i];
    }
    assert x !in rest;
  }

  /** When page `p` sits in exactly one slot `k0` of one side `j0` of the requests,
      the sheet assembled for side `j0` draws it once and every other sheet never. */
  lemma SheetsDrawPageOnce(job: Job, requests: seq<SideRequest>, sources: seq<SourcePage>, p: nat, j0: nat, k0: nat)
    requires ValidJob(job) && p < |sources|
    requires j0 < |requests| && k0 < |requests[j0].cells| && requests[j0].cells[k0].pageIndex == Some(p)
    requires forall j, k :: 0 <= j < |requests| && 0 <= k < |requests[j].cells| && requests[j].cells[k].pageIndex == Some(p) ==>
               j == j0 && k == k0
    ensures forall j :: 0 <= j < |requests| ==>
              multiset(PlacedPages(AssembledSheet(Render(job, requests[j]), sources, job.config.sheet, job.effW, job.effH)))[p] ==
              if j == j0 then 1 else 0
  {
    forall j | 0 <= j < |requests|
      ensures multiset(PlacedPages(AssembledSheet(Render(job, requests[j]), sources, job.config.sheet, job.effW, job.effH)))[p] ==
              if j == j0 then 1 else 0
    {
      var side := Render(job, requests[j]);
      RenderKeepsPages(job, requests[j]);
      assert CellPages(side.grid) == CellPages(requests[j].cells);
      SheetDrawsCellPages(side, sources, job.config.sheet, job.effW, job.effH, p);
      if j == j0 {
        CountOfUniqueSlot(CellPages(requests[j].cells), k0, Some(p));
      } else {
        assert Some(p) !in CellPages(requests[j].cells);
      }
    }
  }

  // ---------------------------------------------------------------- the pipeline

  datatype PipelineError = AnalysisFailed(cause: AnalyzeError) | ImpositionFailed(reason: ImposeError)

  /** The sides the builder for the job's mode emits: step and repeat, saddle
      stitch, or the sequential fill that perfect binding and cut-and-stack share. */
  function ModeRequests(job: Job, pageCount: nat): seq<SideRequest>
    requires ValidJob(job)
  {
    match job.config.mode
    case StepAndRepeat => StepAndRepeatRequests(job, pageCount)
    case BookletSaddleStitch => SaddleRequests(job, pageCount)
    case _ => SequentialRequests(job, pageCount)
  }

  /** Step 5 of `generate_imposed_pdf`: the builder chosen by the mode. */
  method BuildSides(job: Job, pageCount: nat) returns (requests: seq<SideRequest>, sides: seq<Side>)
    requires ValidJob(job)
    ensures requests == ModeRequests(job, pageCount)
    ensures |sides| == |requests| && forall j :: 0 <= j < |sides| ==> sides[j] == Render(job, requests[j])
  {
    if job.config.mode == StepAndRepeat {
      requests, sides := BuildStepAndRepeat(job, pageCount);
    } else if job.config.mode == BookletSaddleStitch {
      requests, sides := BuildSaddleStitch(job, pageCount);
    } else {
      requests, sides := BuildSequential(job, pageCount);
    }
  }

  /** The source pages as assembly reads them, once every page has a media box. */
  function Sources(raws: seq<RawPage>): (r: seq<SourcePage>)
    requires forall i :: 0 <= i < |raws| ==> raws[i].mediaBox.Some?
    ensures |r| == |raws| && forall i :: 0 <= i < |raws| ==> r[i] == SourceOf(raws[i])
  {
    seq(|raws|, i requires 0 <= i < |raws| => SourceOf(raws[i]))
  }

  /** One assembled sheet page per side, in order. */
  function SheetsFor(job: Job, sources: seq<SourcePage>, requests: seq<SideRequest>): (r: seq<SheetPage>)
    ensures |r| == |requests|
  {
    seq(|requests|, j requires 0 <= j < |requests| =>
        AssembledSheet(Render(job, requests[j]), sources, job.config.sheet, job.effW, job.effH))
  }

  /** What `generate_imposed_pdf` produces: one assembled sheet page per side the
      mode's builder emits, in order, or the first error met. */
  function Imposition(raws: seq<RawPage>, config: ImpositionConfig, filename: string, dateText: string,
                      round1: real -> real, round2: real -> real): Result<seq<SheetPage>, PipelineError>
  {
    match Analysis(raws, round1)
    case Err(e) => Err(AnalysisFailed(e))
    case Ok(a) =>
      match PlanImposition(config, a, filename, dateText, round2)
      case Err(e) => Err(ImpositionFailed(e))
      case Ok(job) =>
        assert FirstWithoutMedia(raws) == |raws|;
        Ok(SheetsFor(job, Sources(raws), ModeRequests(job, a.pageCount)))
  }

  /** `generate_imposed_pdf`: analyse, check the trim, lay out, build the sides and
      assemble a sheet page for each. */
  method GenerateImposedPdf(raws: seq<RawPage>, config: ImpositionConfig, filename: string, dateText: string,
                            round1: real -> real, round2: real -> real)
    returns (r: Result<seq<SheetPage>, PipelineError>)
    ensures r == Imposition(raws, config, filename, dateText, round1, round2)
  {
    var analysis := AnalyzePdf(raws, round1);
    if analysis.Err? {
      return Err(AnalysisFailed(analysis.error));
    }
    var a := analysis.value;
    var pageCount := a.pageCount;
    var trim := JobTrim(config, a.pages);
    var fit := CheckTrimFits(config.sheet, config.bleed, trim.0, trim.1);
    if fit.Err? {
      return Err(ImpositionFailed(fit.error));
    }
    var layout := LayoutFor(config, pageCount, 0);
    if layout.nUp == 0 {
      return Err(ImpositionFailed(NothingFits));
    }
    var eff := EffectiveTrim(layout.cellRotation, trim.0, trim.1);
    var job := Job(config, layout, trim.0, trim.1, eff.0, eff.1, filename, dateText, round2);
    assert PlanImposition(config, a, filename, dateText, round2) == Ok(job);
    var requests, sides := BuildSides(job, pageCount);
    assert FirstWithoutMedia(raws) == |raws|;
    var sources := Sources(raws);
    var sheets := AssembleSheets(sides, sources, config.sheet, eff.0, eff.1);
    SheetsForRendered(job, sources, requests, sides, sheets);
    r := Ok(sheets);
  }

  /** The assembly of every side, in order. */
  method AssembleSheets(sides: seq<Side>, sources: seq<SourcePage>, sheet: SheetConfig, effW: real, effH: real)
    returns (sheets: seq<SheetPage>)
    ensures |sheets| == |sides| && forall i :: 0 <= i < |sides| ==> sheets[i] == AssembledSheet(sides[i], sources, sheet, effW, effH)
  {
    sheets := [];
    for j := 0 to |sides|
      invariant |sheets| == j
      invariant forall i :: 0 <= i < j ==> sheets[i] == AssembledSheet(sides[i], sources, sheet, effW, effH)
    {
      var pg := AssembleSheet(sides[j], sources, sheet, effW, effH);
      sheets := sheets + [pg];
    }
  }

  lemma SheetsForRendered(job: Job, sources: seq<SourcePage>, requests: seq<SideRequest>, sides: seq<Side>,
                          sheets: seq<SheetPage>)
    requires |sides| == |requests| && forall j :: 0 <= j < |sides| ==> sides[j] == Render(job, requests[j])
    requires |sheets| == |sides| &&
             forall i :: 0 <= i < |sides| ==> sheets[i] == AssembledSheet(sides[i], sources, job.config.sheet, job.effW, job.effH)
    ensures sheets == SheetsFor(job, sources, requests)
  {
  }

  /** The pipeline fails on a document analysis refuses, and otherwise exactly
      when the trim with its bleed does not fit the oriented sheet; on success
      there is one sheet page per side the mode's builder emits. */
  lemma ImpositionOutcome(raws: seq<RawPage>, config: ImpositionConfig, filename: string, dateText: string,
                          round1: real -> real, round2: real -> real)
    ensures Imposition(raws, config, filename, dateText, round1, round2).Err? &&
            Imposition(raws, config, filename, dateText, round1, round2).error.AnalysisFailed? <==>
            Analysis(raws, round1).Err?
    ensures Analysis(raws, round1).Ok? ==>
              (Imposition(raws, config, filename, dateText, round1, round2).Err? <==>
               !FitsOnSheet(config.sheet, config.bleed, JobTrim(config, Analysis(raws, round1).value.pages).0,
                            JobTrim(config, Analysis(raws, round1).value.pages).1))
    ensures Imposition(raws, config, filename, dateText, round1, round2).Ok? ==>
              var job := PlanImposition(config, Analysis(raws, round1).value, filename, dateText, round2).value;
              |Imposition(raws, config, filename, dateText, round1, round2).value| == |ModeRequests(job, |raws|)|
  {
    if Analysis(raws, round1).Ok? {
      PlanImpositionErrors(config, Analysis(raws, round1).value, filename, dateText, round2);
    }
  }

  /** Page `p` is drawn once on sheet page `j0` of `out` and on no other. */
  predicate DrawnOnceOn(out: seq<SheetPage>, p: nat, j0: int)
  {
    0 <= j0 < |out| && forall j :: 0 <= j < |out| ==> multiset(PlacedPages(out[j]))[p] == if j == j0 then 1 else 0
  }

  /** A successful pipeline run comes from a successful analysis and plan, and its
      output is the assembled sequence of the mode's sides. */
  lemma ImpositionOk(raws: seq<RawPage>, config: ImpositionConfig, filename: string, dateText: string,
                     round1: real -> real, round2: real -> real)
    returns (a: AnalysisResult, job: Job)
    requires Imposition(raws, config, filename, dateText, round1, round2).Ok?
    ensures Analysis(raws, round1) == Ok(a) && a.pageCount == |raws| && FirstWithoutMedia(raws) == |raws|
    ensures PlanImposition(config, a, filename, dateText, round2) == Ok(job) && ValidJob(job) && job.config == config
    ensures job.layout == LayoutFor(config, |raws|, 0)
    ensures Imposition(raws, config, filename, dateText, round1, round2).value ==
            SheetsFor(job, Sources(raws), ModeRequests(job, |raws|))
  {
    a := Analysis(raws, round1).value;
    AnalysisErrors(raws, round1);
    job := PlanImposition(config, a, filename, dateText, round2).value;
  }

  /** The side a sequential job puts page `p` on: one side per `rows * cols`
      pages of the layout (which has at least one cell). */
  function SideOfPage(config: ImpositionConfig, pageCount: nat, p: nat): int
  {
    var layout := LayoutFor(config, pageCount, 0);
    var nUp := layout.rows * layout.cols;
    if nUp >= 1 then p / nUp else 0
  }

  /** In the sequential modes and in saddle stitch every source page is drawn
      exactly once on the output: once on one sheet page and on no other. In a
      sequential mode that page is number `p / nUp`. */
  lemma ImposedPagesDrawnOnce(raws: seq<RawPage>, config: ImpositionConfig, filename: string, dateText: string,
                              round1: real -> real, round2: real -> real, out: seq<SheetPage>, p: nat)
    requires Imposition(raws, config, filename, dateText, round1, round2) == Ok(out) && p < |raws|
    requires config.mode != StepAndRepeat
    ensures exists j0 :: DrawnOnceOn(out, p, j0)
    ensures config.mode != BookletSaddleStitch ==> DrawnOnceOn(out, p, SideOfPage(config, |raws|, p))
  {
    var a, job := ImpositionOk(raws, config, filename, dateText, round1, round2);
    var j0 := PlanDrawsOnce(job, Sources(raws), |raws|, p);
    assert DrawnOnceOn(out, p, j0);
    if config.mode != BookletSaddleStitch {
      SideOfPlannedPage(config, |raws|, p, job.layout, j0);
    }
  }

  /** `SideOfPage` is the side the layout's cell count puts page `p` on. */
  lemma SideOfPlannedPage(config: ImpositionConfig, pageCount: nat, p: nat, layout: ImpositionLayout, j0: int)
    requires layout == LayoutFor(config, pageCount, 0) && j0 == p / (layout.rows * layout.cols)
    ensures SideOfPage(config, pageCount, p) == j0
  {
    MulMono(1, layout.rows, layout.cols);
  }

  /** The same, for the sheets of a planned job. */
  lemma PlanDrawsOnce(job: Job, sources: seq<SourcePage>, pageCount: nat, p: nat) returns (j0: nat)
    requires ValidJob(job) && p < pageCount == |sources| && job.config.mode != StepAndRepeat
    ensures DrawnOnceOn(SheetsFor(job, sources, ModeRequests(job, pageCount)), p, j0)
    ensures job.config.mode != BookletSaddleStitch ==> j0 == p / (job.layout.rows * job.layout.cols)
  {
    j0 := DrawnOnceSide(job, pageCount, p);
    var requests := ModeRequests(job, pageCount);
    var k0: nat :| UniqueSlot(requests, p, j0, k0);
    OutputDrawsOnce(job, sources, requests, p, j0, k0);
  }

  /** Cell `k0` of side `j0` is the one and only cell of `requests` that holds page `p`. */
  predicate UniqueSlot(requests: seq<SideRequest>, p: nat, j0: nat, k0: nat)
  {
    j0 < |requests| && k0 < |requests[j0].cells| && requests[j0].cells[k0].pageIndex == Some(p) &&
    forall j, k :: 0 <= j < |requests| && 0 <= k < |requests[j].cells| && requests[j].cells[k].pageIndex == Some(p) ==>
      j == j0 && k == k0
  }

  /** The side of a non-step-and-repeat job that holds page `p`, and the proof that
      no other side does. */
  lemma DrawnOnceSide(job: Job, pageCount: nat, p: nat) returns (j0: nat)
    requires ValidJob(job) && p < pageCount && job.config.mode != StepAndRepeat
    ensures exists k0: nat :: UniqueSlot(ModeRequests(job, pageCount), p, j0, k0)
    ensures job.config.mode != BookletSaddleStitch ==> j0 == p / (job.layout.rows * job.layout.cols)
  {
    if job.config.mode == BookletSaddleStitch {
      assert ModeRequests(job, pageCount) == SaddleRequests(job, pageCount);
      var requests := SaddleRequests(job, pageCount);
      SaddlePlacesEachPageOnce(job, pageCount, p);
      var j, k :| 0 <= j < |requests| && 0 <= k < |requests[j].cells| && requests[j].cells[k].pageIndex == Some(p);
      assert UniqueSlot(requests, p, j, k);
      j0 := j;
    } else {
      assert ModeRequests(job, pageCount) == SequentialRequests(job, pageCount);
      SequentialPlacesEachPageOnce(job, pageCount, p);
      var nUp := job.layout.rows * job.layout.cols;
      MulMono(1, job.layout.rows, job.layout.cols);
      DivBounds(p, nUp);
      j0 := p / nUp;
      assert UniqueSlot(SequentialRequests(job, pageCount), p, j0, p % nUp);
    }
  }

  lemma OutputDrawsOnce(job: Job, sources: seq<SourcePage>, requests: seq<SideRequest>, p: nat, j0: nat, k0: nat)
    requires ValidJob(job) && p < |sources| && UniqueSlot(requests, p, j0, k0)
    ensures DrawnOnceOn(SheetsFor(job, sources, requests), p, j0)
  {
    SheetsDrawPageOnce(job, requests, sources, p, j0, k0);
  }
}
