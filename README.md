# Print imposition backend, modelled in Dafny

This project models the layout core of a print-imposition service. The service takes a PDF of trimmed pages and lays the pages out on larger press sheets. Four modes are covered:

- step and repeat: every cell of a sheet shows the same page;
- cut and stack and perfect binding: pages fill the cells in reading order;
- saddle-stitch booklets: pages are paired so that folded sheets read in order.

The model follows the backend's own steps, one Dafny module per backend file:

- `Models` (`backend/models.py`): the records and their defaults, such as rectangles, edge bleeds and flags, grid cells, marks, and bleed, sheet and mark configuration.
- `Utils` (`backend/utils.py`): the geometry helpers. These are mm and point conversion, PDF rectangle normalisation, rectangle expansion, the overlap and containment tests, and the line-against-rectangles search.
- `ImpositionEngine` (`backend/imposition_engine.py`): how many cells fit on the sheet, the optional quarter turn, the sheet count, and the page assigned to each cell. It also covers the saddle-stitch signature order.
- `BleedManager` (`backend/bleed_manager.py`): for every cell edge, whether it is interior (it touches a filled neighbour, so it gets no bleed) or exterior. It then centres the grid on the sheet and builds the clip rectangles. It works in place on an `array` of cells, as the backend mutates its list of cells.
- `DuplexHandler` (`backend/duplex_handler.py`): the long-edge and short-edge flips of a back side, and the assignment of back pages.
- `MarkPlacer` (`backend/mark_placer.py`): crop marks on exterior edges only, with no duplicates, plus registration targets, colour bars, fold marks and the slug line.
- `PdfOutput` (`backend/pdf_output.py`): the trim-fits-sheet check and the trim swap of the pipeline. It also covers the three page-sequencing builders and the reading of source page boxes. Finally it covers the cell filter, the XObject cache and the placement matrices of sheet assembly, with a PDF page modelled as the list of its placements and marks.
- `PdfAnalyzer` (`backend/pdf_analyzer.py`): the derived bleed, the per-page warnings, and the geometric tests for pre-existing crop marks, with the page boxes as inputs.
- `Api` (`backend/main.py`): the upload checks and the ten-session cap of the upload endpoint, with the session dictionary kept in insertion order. It also covers the preview's trim fallback and sheet swap, preset-name sanitising, and preset lookup.
- `Numeric` and `Wrappers`: the Python built-ins the backend uses (`int()` truncation, `math.ceil`, `str()` of an integer) and the `Option` and `Result` types.

Modelling choices:

- Lengths are `real` millimetres or points. The factor 0.3528 and its inverse are exact, so converting to points and back is the identity.
- Some values are parameters of the functions that use them:
  - `round(v, 2)` and `round(v, 1)`;
  - `datetime.now()`, as the date text of the slug;
  - `uuid.uuid4()`, as the new session id;
  - `str.isalnum`.
- Where the backend loops and appends, the model is a `method` with a loop. Each method is proved equal to a specification function, and the properties are proved about that function.

The main properties proved:

- every source page lands in exactly one cell of one side in the sequential and saddle-stitch modes, and in the sequential modes on side `p / nUp`;
- the saddle-stitch order places every page of the padded range exactly once;
- mirroring is an involution;
- interior edges are symmetric and get no bleed;
- the grid is centred;
- crop marks avoid interior edges and never repeat;
- the page cursors never pass the page count;
- the session store never holds more than ten sessions.

## Model

| member | source | states |
|---|---|---|
| Numeric.TruncToInt | backend/imposition_engine.py:122-135 | Python `int()` of a float: the integer part, rounding toward zero on either side of 0 |
| Numeric.CeilDiv | backend/imposition_engine.py:74-78 | `math.ceil(n / d)`: the least count whose product with `d` reaches `n` |
| Numeric.CeilDivUnique | backend/imposition_engine.py:201 | the two facts of `CeilDiv`'s contract determine its value |
| Numeric.NatToString | backend/mark_placer.py:277 | `str()` of a non-negative number: at least one character, all decimal digits, with no leading zero unless the number is 0 |
| Numeric.IntToString | backend/mark_placer.py:277 | `str()` of any integer: the digits, after a minus sign when negative |
| Numeric.ParseNatToString | backend/mark_placer.py:277 | reading the decimal string back gives the number |
| Numeric.NatToStringInjective | backend/mark_placer.py:277 | different numbers give different decimal strings |
| Models.Rectangle.RightEdge | backend/models.py:16-18 | the right edge lies `width` to the right of the left edge, so a rectangle of non-negative width has `left <= right` |
| Models.Rectangle.TopEdge | backend/models.py:24-26 | the top edge lies `height` above the bottom edge, so a rectangle of non-negative height has `bottom <= top` |
| Models.DefaultBleedConfig | backend/models.py:47-52 | 3 mm on every edge, uniform |
| Models.DefaultMarkConfig | backend/models.py:60-72 | every mark kind enabled, crop length 5, offset 3, stroke 0.25, registration colour, slug items filename, date, sheet number |
| Models.DefaultSheetConfig | backend/models.py:75-80 | 488 x 330 mm (long side across), landscape, 10 mm grip edge, 8 mm mark margin |
| Models.DefaultImpositionConfig | backend/models.py:95-106 | step and repeat, 90 x 55 mm trim, the default bleed, marks and sheet, no gap, simplex, long-edge flip, auto-rotate on, no creep |
| Models.NewCell | backend/models.py:123-132 | a new cell has the given row, column, page and rotation, no clip rectangle, zero bleed and no interior edge on all four sides, origin at 0 |
| Utils.PtToMm | backend/utils.py:10-11 | the conversion keeps the sign |
| Utils.MmToPt | backend/utils.py:14-15 | the conversion keeps the sign |
| Utils.MmPtRoundTrip | backend/utils.py:4-15 | `pt_to_mm` and `mm_to_pt` undo each other in both orders, because one factor is defined as the reciprocal of the other |
| Utils.MmInchRoundTrip | backend/utils.py:6-23 | `inch_to_mm` and `mm_to_inch` undo each other in both orders |
| Utils.InchToMm | backend/utils.py:6-19 | inches to millimetres by the factor 25.4; `MmInchRoundTrip` proves that `mm_to_inch` undoes it |
| Utils.MmToInch | backend/utils.py:7-23 | millimetres to inches by the reciprocal factor; `MmInchRoundTrip` proves that `inch_to_mm` undoes it |
| Utils.PdfRectToMm | backend/utils.py:26-38 | width and height are never negative; the edges are the converted minimum and maximum corner coordinates |
| Utils.PdfRectCornerOrderIrrelevant | backend/utils.py:33-36 | the result is the same whichever corner of the box comes first, on either axis |
| Utils.MmRectToPtArray | backend/utils.py:41-48 | the four numbers are the rectangle's left, bottom, right and top edges in points |
| Utils.PtArrayRoundTrip | backend/utils.py:26-48 | converting a rectangle of non-negative size to a PDF box and back returns it unchanged |
| Utils.ExpandRect | backend/utils.py:51-57 | each edge moves outward by exactly its own amount; with non-negative amounts the result contains the original |
| Utils.Contains | backend/utils.py:51-57 | the containment the contracts use, boundaries included: an expanded rectangle holds the original, a clip holds its cell's trim, a bleed box holds its trim |
| Utils.RectsOverlap | backend/utils.py:60-66 | the overlap test, false as soon as the rectangles are apart on either axis, touching counting as apart; the three lemmas below prove what it means |
| Utils.OverlapIffCommonInteriorPoint | backend/utils.py:60-66 | for rectangles of positive size, overlap holds exactly when some point lies strictly inside both |
| Utils.RectsOverlapSymmetric | backend/utils.py:60-66 | overlap is symmetric |
| Utils.SharedEdgeIsNoOverlap | backend/utils.py:60-66 | rectangles that only share an edge line do not overlap, in either order |
| Utils.CornersAreInRect | backend/utils.py:69-70 | the test includes all four boundaries: every corner of a rectangle of non-negative size is inside it |
| Utils.ScanRectsFindsHit | backend/utils.py:78-87 | the early-return scan from position `i` finds a hit exactly when some later rectangle other than the excluded one meets the segment |
| Utils.LineOverlapsAnyRect | backend/utils.py:73-87 | true exactly when a rectangle other than `rects[exclude_idx]` holds the midpoint, or both end points |
| Utils.LineOverlapIgnoresExcluded | backend/utils.py:80-82 | false for an empty list, and replacing the excluded rectangle by any other does not change the answer |
| Utils.MidpointInOtherRectOverlaps | backend/utils.py:83-84 | a midpoint inside any rectangle other than the excluded one is an overlap |
| ImpositionEngine.OrientSheet | backend/imposition_engine.py:21-28 | the sheet or its swap: landscape gives width >= height, portrait gives width <= height, any other orientation leaves it as given |
| ImpositionEngine.TightFit | backend/imposition_engine.py:117-129 | with butted items: the count is 0 or fits with both outer bleeds, and one more would not fit |
| ImpositionEngine.SpacedFit | backend/imposition_engine.py:130-135 | with a gap: `k` whole cells fit in the available length and `k + 1` do not |
| ImpositionEngine.AxisCount | backend/imposition_engine.py:117-137 | one axis of the count: the tight fit when the gap is 0, the spaced fit otherwise, and 0 for a non-positive trim or cell size |
| ImpositionEngine.CalcGridCount | backend/imposition_engine.py:99-137 | the loops give the grid count: `(0, 0)` when no printable width or height is left, else the per-axis counts |
| ImpositionEngine.NormalCount | backend/imposition_engine.py:21-41 | the grid count with the trim as configured on the oriented sheet; `ChooseGrid` never keeps fewer items than it |
| ImpositionEngine.RotatedCount | backend/imposition_engine.py:46-51 | the grid count with trim width and height exchanged and the bleeds as configured; `ChooseGrid` keeps it exactly when auto-rotate is on and it holds strictly more items |
| ImpositionEngine.FitButted | backend/imposition_engine.py:122-129 | starting from the truncated estimate, at least 1, the stepping-down loop stops exactly at the tight fit; 0 for a non-positive trim |
| ImpositionEngine.TotalSheets | backend/imposition_engine.py:65-78 | at least one sheet, and the least number of sheets whose capacity reaches the page count (1 page a side in step and repeat, `n_up` otherwise, doubled with duplex) |
| ImpositionEngine.ClampSheet | backend/imposition_engine.py:81 | the sheet number clamped into `[0, total)`: unchanged inside, 0 below, the last sheet above |
| ImpositionEngine.RowMajorIsAPlacement | backend/imposition_engine.py:159-190 | a row-major grid keeps every cell within `rows x cols`, covers each position and never puts two cells on the same one |
| ImpositionEngine.UniformGrid | backend/imposition_engine.py:158-163 | a row-major grid whose every cell shows the same page |
| ImpositionEngine.SequentialGrid | backend/imposition_engine.py:165-190 | a row-major grid whose slot `k` shows page `start + k` while that page exists, and no page after it |
| ImpositionEngine.SequentialGridFillsAPrefix | backend/imposition_engine.py:165-190 | filled cells come first, in increasing page order, and every page index is between `start` and `page_count - 1` |
| ImpositionEngine.FillUniform | backend/imposition_engine.py:158-163 | the nested loops build the uniform grid |
| ImpositionEngine.FillSequential | backend/imposition_engine.py:166-190 | the nested loops build the sequential grid; the cursor ends at `min(start + rows * cols, page_count)`, or at `start` when that is already past the last page |
| ImpositionEngine.CursorAfter | backend/imposition_engine.py:166-190 | where the cursor of a sequential fill stands after `n` cells: moved on by `n` but never past the page count, and not moved when already past it; `FillSequential` ends there |
| ImpositionEngine.SaddleTotal | backend/imposition_engine.py:201 | the least multiple of 4 that is at least the page count, so fewer than 4 pages are padding |
| ImpositionEngine.SaddleSlotPage | backend/imposition_engine.py:206-210 | every slot numbers a page below the padded total |
| ImpositionEngine.SaddleSlotOf | backend/imposition_engine.py:206-210 | every page of the padded range has a sheet and a slot carrying it (the inverse of the pairing) |
| ImpositionEngine.SaddleSlotPageInjective | backend/imposition_engine.py:206-210 | no two slots of the signature carry the same page, so the pairing is a permutation of `0 .. total - 1` |
| ImpositionEngine.SaddleSlotOfPage | backend/imposition_engine.py:206-210 | the inverse recovers the sheet and slot a page was placed on |
| ImpositionEngine.SaddleSpreads | backend/imposition_engine.py:207-210 | the front pair and the back pair each add up to `total - 1`, and the back left page follows the front right one |
| ImpositionEngine.SaddleSheets | backend/imposition_engine.py:235-257 | `total / 4` sheets, each with two pages per side |
| ImpositionEngine.SaddleSheetsPlaceEachPageOnce | backend/imposition_engine.py:235-257 | every source page sits on exactly one slot of exactly one sheet |
| ImpositionEngine.SlotOfSaddleSheet | backend/imposition_engine.py:239-256 | each slot holds its signature page, replaced by nothing past the last source page |
| ImpositionEngine.SaddleBlanksArePadding | backend/imposition_engine.py:247-254 | a slot is empty exactly when its page number is at least the page count |
| ImpositionEngine.GetSaddleStitchSheets | backend/imposition_engine.py:235-257 | the loop builds the booklet's sheets |
| ImpositionEngine.SideCells | backend/imposition_engine.py:224-230 | one cell per page of the side, in order, wrapping after `cols` cells |
| ImpositionEngine.FillSide | backend/imposition_engine.py:224-230 | the loop builds the cells of one side |
| ImpositionEngine.BuildSaddleStitchGrid | backend/imposition_engine.py:195-232 | the front of the requested booklet sheet, clamped to the sheets there are, and no cells for an empty document |
| ImpositionEngine.BuildGrid | backend/imposition_engine.py:140-192 | page 0 everywhere in step and repeat, consecutive pages from `sheet_number * n_up` in cut and stack and perfect binding, a booklet front in saddle stitching |
| ImpositionEngine.GridFor | backend/imposition_engine.py:140-192 | the grid of the requested sheet for each mode; `BuildGrid` computes it and `SequentialLayoutGrid` and `StepAndRepeatShowsFirstPage` state its pages |
| ImpositionEngine.ChooseGrid | backend/imposition_engine.py:37-61 | both dimensions at least 1; rotation is 90 exactly when auto-rotate is on and the rotated count is strictly larger (a tie keeps 0); never fewer items than the normal count |
| ImpositionEngine.SelectGrid | backend/imposition_engine.py:21-61 | orienting the sheet, counting both ways and keeping the better grid gives the chosen grid |
| ImpositionEngine.LayoutFor | backend/imposition_engine.py:58-96 | rows and cols at least 1, `n_up = rows * cols`, the sheet count of the mode, and the chosen rotation |
| ImpositionEngine.CalculateImpositionLayout | backend/imposition_engine.py:10-96 | the method computes the layout of the requested sheet |
| ImpositionEngine.SequentialPagePlaced | backend/imposition_engine.py:166-173 | with `n` cells a sheet, page `p` is slot `p % n` of sheet `p / n`, one of the sheets there are |
| ImpositionEngine.SequentialPageUnique | backend/imposition_engine.py:166-173 | no other slot of any sheet shows page `p` |
| ImpositionEngine.SequentialLayoutGrid | backend/imposition_engine.py:80-87 | in cut and stack and in perfect binding, every sheet number keeps its place (no clamping) and its grid is the run of pages from `s * n_up` |
| ImpositionEngine.SequentialSheetsShowEachPage | backend/imposition_engine.py:65-96 | without duplex, going through all sheets shows every source page, in slot `p % n_up` of sheet `p / n_up` |
| ImpositionEngine.SequentialSheetsShowPageOnce | backend/imposition_engine.py:65-96 | no other slot of any sheet shows that page |
| ImpositionEngine.StepAndRepeatShowsFirstPage | backend/imposition_engine.py:158-163 | the step-and-repeat grid has `n_up` cells, each showing page 0, whatever sheet is asked for |
| BleedManager.NeighborPosition | backend/bleed_manager.py:125-135 | "top" faces row + 1 (rows count upward), "bottom" row - 1, "left" col - 1, "right" col + 1 |
| BleedManager.Opposite | backend/bleed_manager.py:128-135 | top and bottom face each other, and so do left and right |
| BleedManager.FindFrom | backend/bleed_manager.py:142-146 | the first cell at the target position from index `i` on, or none when no later cell is there |
| BleedManager.FindFromDependsOnPositions | backend/bleed_manager.py:142-146 | the scan depends only on the cells' positions |
| BleedManager.NeighborIndex | backend/bleed_manager.py:121-146 | none outside `[0, rows) x [0, cols)`; inside the bounds, the first cell at the position beyond the edge, or none when no cell is there |
| BleedManager.GetNeighbor | backend/bleed_manager.py:121-146 | the search loop returns the neighbour the bounds check and the first-match scan select |
| BleedManager.BleedForEdge | backend/bleed_manager.py:149-158 | each edge's configured bleed |
| BleedManager.SetEdgeBleed | backend/bleed_manager.py:161-169 | the named edge takes the value; the other three keep theirs |
| BleedManager.SetInteriorFlag | backend/bleed_manager.py:172-180 | the named edge takes the flag; the other three keep theirs |
| BleedManager.CellWithBleed | backend/bleed_manager.py:26-60 | an empty cell is unchanged; for a filled cell only the bleeds and flags change, and an edge is interior with no bleed exactly when there is no gap and the in-bounds neighbour shows a page |
| BleedManager.PerCellBleed | backend/bleed_manager.py:12-62 | empty cells unchanged; interior edges get 0 and all others the configured bleed; with a gap every edge of a filled cell is exterior with full bleed; positions, pages, rotation, origins and clip are untouched |
| BleedManager.NeighborDependsOnSlots | backend/bleed_manager.py:121-146 | the neighbour found, and whether it shows a page, depend on positions and pages only |
| BleedManager.EdgeValues | backend/bleed_manager.py:30-57 | the edge loop of one filled cell yields exactly that cell's bleeds and flags |
| BleedManager.CellWithBleedDependsOnSlots | backend/bleed_manager.py:26-60 | updating cells in place does not change the neighbours later cells see, because only bleeds and flags change |
| BleedManager.CalculatePerCellBleed | backend/bleed_manager.py:12-62 | the in-place pass over the array leaves it equal to the bleed pass applied to the grid it started from |
| BleedManager.FindFromFindsUnique | backend/bleed_manager.py:142-144 | with distinct positions, the scan finds the only cell at a position |
| BleedManager.InteriorIffFilledNeighbor | backend/bleed_manager.py:39-57 | with distinct positions, an edge is interior exactly when there is no gap and some filled cell sits at the in-bounds position beyond it |
| BleedManager.InteriorSymmetric | backend/bleed_manager.py:121-146 | if a filled cell's edge is interior, the neighbour beyond it exists and its opposite edge is interior |
| BleedManager.PerCellBleedSymmetric | backend/bleed_manager.py:44-60 | after the pass, an interior edge has bleed 0 and the neighbour's opposite edge is interior with bleed 0 too |
| BleedManager.PlaceCell | backend/bleed_manager.py:102-116 | only the cell's origin and clip change, and the clip is its trim rectangle grown by its own bleeds |
| BleedManager.CellPositions | backend/bleed_manager.py:65-118 | every cell of the grid placed, one for one |
| BleedManager.GridGeometry | backend/bleed_manager.py:88-96 | the grid extent (trims plus outer bleed, minus the trailing gap) and the cell pitch for either case |
| BleedManager.CalculateCellPositions | backend/bleed_manager.py:65-118 | the in-place loop leaves every cell placed |
| BleedManager.PositionCell | backend/bleed_manager.py:103-116 | the loop body computes the placed cell |
| BleedManager.ClipCoversTrim | backend/bleed_manager.py:111-116 | with non-negative bleeds the clip rectangle contains the trim rectangle |
| BleedManager.AdjacentCellsOnePitchApart | backend/bleed_manager.py:102-108 | cells side by side in a row are `trim_w` apart without gap and `trim_w + left + right + gap` apart with one, at the same height |
| BleedManager.StackedCellsOnePitchApart | backend/bleed_manager.py:102-108 | cells above each other in a column are `trim_h` apart without gap and `trim_h + top + bottom + gap` apart with one |
| BleedManager.GridCentered | backend/bleed_manager.py:87-100 | the space left of the first column's clip equals the space right of the last column's, and likewise below and above, on the oriented sheet |
| BleedManager.GridCenteredAcross | backend/bleed_manager.py:88-99 | the horizontal half of the centring |
| BleedManager.GridCenteredUp | backend/bleed_manager.py:88-100 | the vertical half of the centring |
| DuplexHandler.MirrorCell | backend/duplex_handler.py:24-35 | long edge: `col -> cols - 1 - col`, row and rotation kept; short edge: `row -> rows - 1 - row`, rotation turned 180 into `[0, 360)`; pages and everything else kept; in-bounds cells stay in bounds |
| DuplexHandler.Mirror | backend/duplex_handler.py:22-35 | the copied grid mirrored cell for cell, same length |
| DuplexHandler.MirrorLongInvolution | backend/duplex_handler.py:24-29 | a long-edge flip applied twice gives the cell back |
| DuplexHandler.MirrorShortInvolution | backend/duplex_handler.py:30-35 | a short-edge flip applied twice gives back row and rotation, for a rotation already in `[0, 360)` |
| DuplexHandler.MirrorGridInvolution | backend/duplex_handler.py:22-35 | mirroring a whole grid twice gives it back |
| DuplexHandler.MirrorEdge | backend/duplex_handler.py:24-35 | a long-edge flip keeps top and bottom, a short-edge flip keeps left and right |
| DuplexHandler.MirrorEdgeInvolution | backend/duplex_handler.py:24-35 | mirroring an edge twice gives it back |
| DuplexHandler.FindFromMirrored | backend/duplex_handler.py:24-35 | the neighbour search on the mirrored grid at the mirrored position finds the same cell index |
| DuplexHandler.NeighborMirrored | backend/duplex_handler.py:37-38 | the cell beyond a mirrored edge on the back is the cell beyond the edge on the front |
| DuplexHandler.InteriorMirrored | backend/duplex_handler.py:37-38 | an edge is interior on the front exactly when its mirror edge is interior on the back |
| DuplexHandler.DuplexBack | backend/duplex_handler.py:22-44 | the back grid: the front mirrored for the flip edge, then the bleed and position passes; `DuplexBackKeepsPages` and `DuplexBackMirrorsInteriorEdges` prove what it keeps |
| DuplexHandler.CreateDuplexBack | backend/duplex_handler.py:11-44 | a fresh back grid (the front is not modified): the front mirrored, then through the bleed pass and the positioning pass |
| DuplexHandler.DuplexBackKeepsPages | backend/duplex_handler.py:22-44 | the back has as many cells as the front and each shows the same page |
| DuplexHandler.DuplexBackMirrorsInteriorEdges | backend/duplex_handler.py:37-42 | the back's bleed is recomputed by the front's rules: a back edge is interior exactly when the front cell's mirrored edge is |
| DuplexHandler.InsertSorted | backend/duplex_handler.py:53 | inserting a cell index into a sorted order keeps it sorted and adds exactly that index |
| DuplexHandler.PositionOrder | backend/duplex_handler.py:53 | Python's stable `sorted` by `(row, col)`: every index once, strictly increasing in the sort order |
| DuplexHandler.IndexOf | backend/duplex_handler.py:53 | the first position of an index in the order |
| DuplexHandler.BackPages | backend/duplex_handler.py:53-58 | the cell of sort rank `k` shows page `cursor + k` while pages remain and none after; nothing else changes |
| DuplexHandler.AssignBackPages | backend/duplex_handler.py:47-59 | the in-place loop leaves the grid with back pages assigned; the cursor ends at `min(cursor + len, page_count)`, or where it was when already past the end |
| DuplexHandler.BackPagesFollowPositions | backend/duplex_handler.py:53-58 | a cell sorted before a filled cell is filled too, with a smaller page |
| DuplexHandler.SortedIndicesDistinct | backend/duplex_handler.py:53 | the sorted order lists no cell twice |
| DuplexHandler.RankOfOrder | backend/duplex_handler.py:53 | the cell at position `k` of the order has rank `k` |
| DuplexHandler.BackPagesPlaceEachPageOnce | backend/duplex_handler.py:53-58 | every page from the cursor up to the page count, as far as there are cells, lands on exactly one cell, the one ranked `p - cursor` |
| DuplexHandler.BackPageHasRank | backend/duplex_handler.py:53-58 | the cell showing page `p` is the one ranked `p - cursor` |
| DuplexHandler.BackPagesLeftoverEmpty | backend/duplex_handler.py:54-59 | cells past the last page get no page, and a cursor that started at most `page_count` never goes beyond it |
| MarkPlacer.CandidatesOfCell | backend/mark_placer.py:85-153 | a cell's corners give two candidates each, horizontal then vertical, all of that cell and exterior exactly where its edge is not flagged interior |
| MarkPlacer.CandidatesWellFormed | backend/mark_placer.py:78-80 | every candidate belongs to a cell with a page, and is exterior exactly where that cell's edge is not interior |
| MarkPlacer.TrimRects | backend/mark_placer.py:63-74 | the trim rectangles of the filled cells, at most one per cell |
| MarkPlacer.Step | backend/mark_placer.py:94-107 | one candidate considered: its mark is placed when its edge is exterior, its rounded key is new and it meets no trim rectangle but its own cell's; `StepCases` and `CropRunProvenance` follow from it |
| MarkPlacer.CropRun | backend/mark_placer.py:76-153 | the placer's state after the candidates in order, starting from no marks and no keys; its invariants are `CropRunSeen`, `CropRunDistinct`, `CropRunShapes` and `CropRunProvenance` |
| MarkPlacer.CropMarks | backend/mark_placer.py:50-155 | the crop marks of a grid: the run over every filled cell's candidates against the trim rectangles of all filled cells; `CropMarksProperties` states what they are |
| MarkPlacer.CropRunSnoc | backend/mark_placer.py:78-153 | considering one more candidate is one more step of the placer |
| MarkPlacer.TryCropMark | backend/mark_placer.py:94-153 | one `if` block: the mark `offset` from the corner and `length` long is placed when its rounded key is new and it meets no trim rectangle other than the cell's own |
| MarkPlacer.CornerCropMarks | backend/mark_placer.py:92-153 | one corner: the horizontal mark, then the vertical one, each only on an exterior edge |
| MarkPlacer.CellCropMarks | backend/mark_placer.py:82-153 | the corner loop of one filled cell considers its candidates in order |
| MarkPlacer.PlaceCropMarks | backend/mark_placer.py:50-155 | both loops together give the crop marks of the grid |
| MarkPlacer.KeysOfMembers | backend/mark_placer.py:76 | a key is used exactly when some placed mark has it |
| MarkPlacer.StepCases | backend/mark_placer.py:97-107 | a step leaves the state alone or appends the candidate's mark and adds its key |
| MarkPlacer.CropRunSeen | backend/mark_placer.py:76-153 | the set of seen keys is exactly the set of keys of the placed marks |
| MarkPlacer.CropRunDistinct | backend/mark_placer.py:97-107 | no two placed marks share a rounded key |
| MarkPlacer.CropRunShapes | backend/mark_placer.py:95-153 | every placed mark has `y1 = y2` or `x1 = x2` and is exactly `crop_mark_length` long |
| MarkPlacer.CropRunProvenance | backend/mark_placer.py:94-153 | every placed mark comes from an exterior candidate and meets no trim rectangle but its own cell's |
| MarkPlacer.CropMarksProperties | backend/mark_placer.py:50-155 | crop marks are axis-aligned and `crop_mark_length` long, no two share a rounded key, and each leaves a corner of a filled cell beyond an edge not flagged interior, clear of the other trims |
| MarkPlacer.CandidateCorner | backend/mark_placer.py:85-92 | every candidate sits at a corner of its own cell |
| MarkPlacer.CandidateCornerUpTo | backend/mark_placer.py:85-92 | the same for the candidates of the first `n` cells |
| MarkPlacer.OwnCandidateCorner | backend/mark_placer.py:85-92 | the same for one cell's candidates |
| MarkPlacer.RegistrationPositions | backend/mark_placer.py:161-170 | four positions |
| MarkPlacer.RegistrationMark | backend/mark_placer.py:172-184 | a registration target at a point: radius 4.0, cross length 6.0, stroke 0.25, registration colour |
| MarkPlacer.RegistrationMarks | backend/mark_placer.py:172-184 | four marks, all of registration type |
| MarkPlacer.PlaceRegistrationMarks | backend/mark_placer.py:158-186 | the loop gives the registration group, each target with radius 4.0 |
| MarkPlacer.RegistrationMarksCentred | backend/mark_placer.py:161-170 | the targets sit at the left, right, bottom and top centre, `mark_margin / 2` in from the edge, mirrored about the centre lines |
| MarkPlacer.ColorBars | backend/mark_placer.py:197-224 | twelve patches, all of color-bar type |
| MarkPlacer.PlaceColorBars | backend/mark_placer.py:189-226 | the loop gives patch `i` at `y = 2.0`, `x = mark_margin + 5i`, size 4 x 4 |
| MarkPlacer.ColorBarsDisjoint | backend/mark_placer.py:192-213 | distinct patches never overlap: each ends before the next begins |
| MarkPlacer.FoldMarks | backend/mark_placer.py:229-254 | no marks unless `cols == 2`; then two vertical 5 mm marks at `x = sheet_width / 2`, from the bottom edge and from the top edge |
| MarkPlacer.SlugPart | backend/mark_placer.py:270-279 | the text of one slug item: `File: `, `Date: `, `Sheet: n of N` or `Profile: CMYK`, and nothing for an unknown item (`UnknownSlugItemSkipped`) |
| MarkPlacer.SlugText | backend/mark_placer.py:269-281 | the recognised items' texts joined by two spaces, a bar and two spaces; `DefaultSlugText` gives it for the default items |
| MarkPlacer.SlugParts | backend/mark_placer.py:269-279 | at most one part per item |
| MarkPlacer.PlaceSlugInfo | backend/mark_placer.py:257-296 | exactly one mark, at the mark margin 3 mm below the top edge, whose text joins the recognised items' texts with two spaces, a vertical bar and two spaces |
| MarkPlacer.UnknownSlugItemSkipped | backend/mark_placer.py:270-279 | an item the placer does not know adds nothing to the slug |
| MarkPlacer.DefaultSlugText | backend/mark_placer.py:269-281 | the default items give `File: ...`, `Date: ...` and `Sheet: n of N`, joined by the separator |
| MarkPlacer.AllMarks | backend/mark_placer.py:13-47 | the marks of one side, the five groups in order, each only when its flag is on; `AllMarksGroups` counts each group |
| MarkPlacer.PlaceAllMarks | backend/mark_placer.py:13-47 | crop, registration, color-bar, fold and slug marks concatenated in that order, each group only when its flag is on |
| MarkPlacer.CountTypeAppend | backend/mark_placer.py:26-47 | counting one kind of mark adds up over a concatenation |
| MarkPlacer.CountUniform | backend/mark_placer.py:26-47 | a group of one kind counts fully for that kind and not at all for the others |
| MarkPlacer.CountFive | backend/mark_placer.py:26-47 | the count over the five concatenated groups is the sum of the group counts |
| MarkPlacer.CropMarksAreCrop | backend/mark_placer.py:100-102 | every crop mark has the crop type |
| MarkPlacer.AllMarksGroups | backend/mark_placer.py:28-47 | 4 registration marks, 12 color patches and 1 slug exactly when their flags are on, 2 fold marks exactly when folding is on and `cols == 2`, and crop marks only when enabled |
| MarkPlacer.GroupsCount | backend/mark_placer.py:28-47 | each of the five groups is counted under its own kind |
| PdfAnalyzer.DetectBleed | backend/pdf_analyzer.py:40-65 | every detected bleed is non-negative; without a trim box all four are 0 |
| PdfAnalyzer.AtMostTen | backend/pdf_analyzer.py:56-61 | a margin of at most 10 mm is kept, a larger one becomes 0, so a non-negative margin stays in `[0, 10]` |
| PdfAnalyzer.BleedBoxRecovered | backend/pdf_analyzer.py:43-49 | with trim and bleed boxes, a bleed box around the trim is exactly the trim grown by the detected bleed |
| PdfAnalyzer.MediaMarginsRecovered | backend/pdf_analyzer.py:50-61 | with only a trim box, media margins of at most 10 mm are recovered the same way, and a side whose margin is over 10 mm gets 0 |
| PdfAnalyzer.TrimOnlyBleedBounded | backend/pdf_analyzer.py:50-61 | with only a trim box, every detected bleed is at most 10 mm |
| PdfAnalyzer.ScanForCropMarks | backend/pdf_analyzer.py:192-253 | the scan's verdict: marks exactly when at least four corner strokes were counted |
| PdfAnalyzer.DetectExistingMarks | backend/pdf_analyzer.py:122-163 | no marks when trim and media agree within 1 mm both ways, and none unless some side has more than 5 mm of room |
| PdfAnalyzer.DetectExistingMarksDecision | backend/pdf_analyzer.py:148-163 | once there is room, a scanned page has marks exactly when the scan counted at least 4 corner strokes, and an unscanned one exactly when the smallest margin exceeds 8 mm |
| PdfAnalyzer.MediaAsTrimHasNoMarks | backend/pdf_analyzer.py:62-64 | a page analysed without a trim box, whose trim is its media box, never has marks detected |
| PdfAnalyzer.PageTrim | backend/pdf_analyzer.py:36-64 | the trim the analysis settles on: the trim box in millimetres, else the media box |
| PdfAnalyzer.SizeKey | backend/pdf_analyzer.py:72 | the size pages are compared by: width and height of that trim rounded to 0.1 mm |
| PdfAnalyzer.OptionalRect | backend/pdf_analyzer.py:36-38 | a box that is present is converted to millimetres, an absent one stays absent |
| PdfAnalyzer.PageGeometryOf | backend/pdf_analyzer.py:25-95 | the recorded page: converted media, bleed and art boxes, the trim box or else the media box, and for a page without trim box zero bleed and no marks |
| PdfAnalyzer.FirstWithoutMedia | backend/pdf_analyzer.py:25-29 | the first page lacking a media box, with every earlier page having one |
| PdfAnalyzer.AnalyzePdf | backend/pdf_analyzer.py:8-97 | the page loop returns the analysis of the document |
| PdfAnalyzer.GeometriesExtend | backend/pdf_analyzer.py:85-95 | appending the next page's geometry keeps the list equal to the geometries of the pages so far |
| PdfAnalyzer.PageStep | backend/pdf_analyzer.py:62-80 | one pass of the loop records page 1's rounded size and adds exactly that page's warnings |
| PdfAnalyzer.PageWarnings | backend/pdf_analyzer.py:62-80 | the warnings page `i` adds, a missing trim box first and then a size different from page 1's; `WarningsOfPrefix` states exactly when each arises |
| PdfAnalyzer.Warnings | backend/pdf_analyzer.py:62-80 | the warnings of the first `n` pages in page order; `PageStep` shows the loop adds them page by page |
| PdfAnalyzer.Analysis | backend/pdf_analyzer.py:8-97 | what `analyze_pdf` returns; `AnalysisErrors` states its refusals and `AnalyzePdf` computes it |
| PdfAnalyzer.AnalysisErrors | backend/pdf_analyzer.py:20-29 | analysis fails exactly for zero pages or a page without media box, naming the first such page; a success has one geometry per page, numbered in order |
| PdfAnalyzer.WarningsOfPrefix | backend/pdf_analyzer.py:62-80 | a no-trim-box warning exactly for the pages that lack one; a size warning exactly for pages after page 1 whose trim rounded to 0.1 differs from page 1's |
| PdfAnalyzer.PageOneHasNoSizeWarning | backend/pdf_analyzer.py:72-80 | page 1 never gets a size warning |
| PdfOutput.JobTrim | backend/pdf_output.py:36-45 | the configured trim is kept unless one of its dimensions is 0; then page 1's trim box is used, else page 1's media box; with no pages the configured values stay |
| PdfOutput.CheckTrimFits | backend/pdf_output.py:49-64 | succeeds, with the oriented sheet, exactly when trim plus left and right bleed fits across and trim plus top and bottom bleed fits up; the width error comes first and is raised exactly when the width overflows, the height error only when the width fits |
| PdfOutput.EffectiveTrim | backend/pdf_output.py:72-77 | the trim is turned (width and height swapped) exactly when the cell rotation is 90 |
| PdfOutput.PlanImposition | backend/pdf_output.py:36-77 | every plan it accepts is a valid job: a layout with at least one cell and an effective trim |
| PdfOutput.PlanImpositionErrors | backend/pdf_output.py:49-77 | the plan fails exactly when trim and bleed do not fit the oriented sheet; the "nothing fits" error can never be raised; an accepted plan lays out sheet 0 and uses the turned trim exactly as the cell rotation says |
| PdfOutput.SidesKeepPages | backend/pdf_output.py:143-148 | computing bleed and positions (front) or mirroring for duplex (back) keeps the number of cells and each slot's page |
| PdfOutput.FrontSide | backend/pdf_output.py:141-150 | a front side: the bleed and position passes on the given cells, then the marks of its sheet; `SidesKeepPages` proves the pages stay |
| PdfOutput.BackSide | backend/pdf_output.py:171-178 | a duplex back: the cells through `DuplexBack`, then their marks; `SidesKeepPages` proves the pages stay |
| PdfOutput.PrepareFront | backend/pdf_output.py:143-153 | the front side is the cells with bleed and positions computed, plus the marks for its sheet number and sheet total |
| PdfOutput.PrepareBack | backend/pdf_output.py:170-178 | the back side is the cells mirrored for the flip edge, plus its marks |
| PdfOutput.Render | backend/pdf_output.py:141-185 | a side request made into a side, as a duplex back or as a front; `RenderKeepsPages` proves it shows the request's pages |
| PdfOutput.RenderSide | backend/pdf_output.py:143-185 | renders a side request as a front or a duplex back, as the builders do |
| PdfOutput.RenderKeepsPages | backend/pdf_output.py:143-185 | a rendered side shows its request's pages slot for slot |
| PdfOutput.BuildStepAndRepeat | backend/pdf_output.py:119-185 | the sides emitted are exactly those of the step-and-repeat job, in order, each rendered from its request |
| PdfOutput.StepNextSheet | backend/pdf_output.py:129-185 | one pass of the sheet loop appends the front (and, with duplex, the back) of the sheet and moves the page index past them |
| PdfOutput.StepSide | backend/pdf_output.py:132-157 | appends the next side of the job to those made so far |
| PdfOutput.StepPrefixExtends | backend/pdf_output.py:129-185 | appending the next side keeps the made sides a prefix of the job |
| PdfOutput.StepRequestsFrom | backend/pdf_output.py:129-185 | a prefix of the job's full length is the whole job |
| PdfOutput.StepAndRepeatRequest | backend/pdf_output.py:129-185 | side `j` of a step-and-repeat job; `StepAndRepeatPages` and `StepAndRepeatShowsEveryPage` state its pages |
| PdfOutput.StepAndRepeatPages | backend/pdf_output.py:132-167 | side `j` has `rows * cols` cells all showing page `j`, or none on a duplex back with no page left |
| PdfOutput.StepAndRepeatShowsEveryPage | backend/pdf_output.py:119-185 | every source page `p` fills every cell of side `p`, and the job has one sheet per page, or half as many rounded up with duplex |
| PdfOutput.SideStartIsProduct | backend/pdf_output.py:197-246 | the page cursor, moved on by `nUp` per side, starts side `j` at `j * nUp` |
| PdfOutput.SequentialGridPastEnd | backend/pdf_output.py:203-212 | once the cursor has passed the last page every cell is empty, wherever it stands |
| PdfOutput.BuildSequential | backend/pdf_output.py:188-259 | the sides emitted are exactly those of the cut-and-stack or perfect-bind job, in order, each rendered from its request |
| PdfOutput.SequentialNextSheet | backend/pdf_output.py:197-259 | one pass of the sheet loop appends the sheet's front (and back with duplex) and moves the cursor on by their cells, capped at the page count |
| PdfOutput.SequentialSide | backend/pdf_output.py:200-229 | fills the next side from the cursor, renders it, appends it, and moves the cursor on |
| PdfOutput.SequentialRequestsFrom | backend/pdf_output.py:197-259 | a prefix of the job's full length is the whole job |
| PdfOutput.SequentialPrefixExtends | backend/pdf_output.py:197-259 | appending the next side keeps the made sides a prefix of the job |
| PdfOutput.RenderedExtends | backend/pdf_output.py:143-185 | sides rendered from their requests stay so when more are appended |
| PdfOutput.SequentialSheetCount | backend/pdf_output.py:197 | the loop stops after exactly the sheets needed for the cursor to pass the last page |
| PdfOutput.SequentialRequest | backend/pdf_output.py:197-259 | side `j` of a sequential job, from page `j * nUp`; `SequentialRequestPages` and `SequentialPlacesEachPageOnce` state its pages |
| PdfOutput.SequentialRequestPages | backend/pdf_output.py:200-246 | side `j` has `rows * cols` cells; slot `k` shows page `j * nUp + k` while pages remain and is empty after |
| PdfOutput.SequentialRequestsCover | backend/pdf_output.py:197-259 | the job's sides have room for every page |
| PdfOutput.SequentialPlacesEachPageOnce | backend/pdf_output.py:188-259 | page `p` fills slot `p % nUp` of side `p / nUp` and no other slot of any side |
| PdfOutput.SequentialFrontBeforeBack | backend/pdf_output.py:200-246 | with duplex sides `2s` and `2s + 1` are the front and back of one sheet, and every page on the front comes before every page on the back |
| PdfOutput.MirrorColumns | backend/pdf_output.py:307-308 | every cell keeps its place in the list and has its column mirrored to `cols - 1 - col` |
| PdfOutput.MirrorColumnsInvolution | backend/pdf_output.py:307-308 | mirroring twice gives the cells back |
| PdfOutput.MirrorBackColumns | backend/pdf_output.py:307-308 | the flip loop computes `MirrorColumns` |
| PdfOutput.BuildSaddleStitch | backend/pdf_output.py:262-324 | the sides emitted are exactly the front and column-mirrored back of each booklet sheet, in order, each rendered from its request |
| PdfOutput.SaddleRequestsFrom | backend/pdf_output.py:270-324 | a prefix of the booklet's full length is the whole booklet |
| PdfOutput.SaddlePrefixExtends | backend/pdf_output.py:270-324 | appending the next sheet's two sides keeps the prefix |
| PdfOutput.SaddleNextSheet | backend/pdf_output.py:270-324 | one pass of the sheet loop appends the sheet's front and back |
| PdfOutput.SaddleSheetSides | backend/pdf_output.py:271-308 | computes the sheet's front request and its column-mirrored back request and renders both |
| PdfOutput.SaddleRequest | backend/pdf_output.py:270-324 | side `j` of a booklet: the front or column-mirrored back of sheet `j / 2`; `SaddleSideSlots` and `SaddlePlacesEachPageOnce` state its pages |
| PdfOutput.SaddleSideSlots | backend/pdf_output.py:271-308 | each booklet side has two cells; slot `k` of side `j` is slot `2 (j % 2) + k` of sheet `j / 2`; a back cell `k` sits in column `cols - 1 - k % cols` |
| PdfOutput.SaddlePlacesEachPageOnce | backend/pdf_output.py:262-324 | every source page is in some cell of some booklet side, and in only one |
| PdfOutput.SaddleSlotUnique | backend/pdf_output.py:262-324 | two booklet slots showing the same page are the same slot |
| PdfOutput.SourcePageBoxes | backend/pdf_output.py:327-362 | each box is read as its smaller corner and its absolute extent, so the sizes are non-negative and corner plus size is the larger corner; without a trim box the media box serves as trim |
| PdfOutput.SourcePageBoxesCornerOrder | backend/pdf_output.py:334-353 | the boxes read do not depend on which corner a box lists first |
| PdfOutput.SourceOf | backend/pdf_output.py:333-347 | the page as assembly reads it: the media box and the page's own /TrimBox entry only; `SourceBoxesAgreeWithAnalysis` relates it to the analysis |
| PdfOutput.SourceBoxesAgreeWithAnalysis | backend/pdf_output.py:327-362 | the media box assembly reads is, in millimetres, the one the analysis recorded; so is the trim when the page has its own /TrimBox or the analysis found no trim either; a page without its own /TrimBox is trimmed to its media box |
| PdfOutput.PlacementMatrix | backend/pdf_output.py:460-516 | the unscaled matrix for each rotation, with the translations the source writes; `PlacementMapsTrim` and `PlacementAlignsTrim` prove where it sends the source trim |
| PdfOutput.TrimImage | backend/pdf_output.py:460-516 | the rectangle the source trim lands on for each rotation; `PlacementMapsTrim` proves the matrix maps the trim onto it |
| PdfOutput.PlacementMapsTrim | backend/pdf_output.py:460-516 | for every rotation the placement matrix maps a point into the cell's trim image exactly when the point is in the source trim |
| PdfOutput.PlacementAlignsTrim | backend/pdf_output.py:460-516 | upright, the source trim origin lands on the cell's trim origin; at 180 the opposite corner does; unturned the image is the source trim at the target; turned a quarter it fills the cell when the cell's trim is the source trim turned |
| PdfOutput.ClipInPoints | backend/pdf_output.py:446-450 | the clip in points: the cell's clip rectangle converted, else its trim at the target; `ClipCoversCellTrim` proves it covers the trim |
| PdfOutput.ClipCoversCellTrim | backend/pdf_output.py:447-450 | a clip rectangle covering the cell's trim in millimetres covers it in points; without one the clip is the trim itself |
| PdfOutput.XObjectNamesDistinct | backend/pdf_output.py:427-430 | different counter values give different XObject names `P<k>` |
| PdfOutput.AssembleSheet | backend/pdf_output.py:365-531 | the sheet is the oriented sheet size in points, one placement per drawn cell in grid order, and the side's marks |
| PdfOutput.DrawnCells | backend/pdf_output.py:418-422 | every cell kept holds a page the source has |
| PdfOutput.AssembleCellsInvariant | backend/pdf_output.py:411-518 | after the cell loop the XObject cache is consistent and each placement draws the drawn cell at its index under its page's name |
| PdfOutput.AssembleStep | backend/pdf_output.py:418-518 | one pass of the cell loop: skip the cell, or draw it, making its page's XObject first when the page has none yet; `AssembleStepKeeps` and `AssembleStepAppends` state it |
| PdfOutput.AssembleStepKeeps | backend/pdf_output.py:418-518 | one pass of the cell loop keeps the cache consistent and appends a placement exactly when the cell is drawn |
| PdfOutput.AssembleStepAppends | backend/pdf_output.py:418-518 | drawing a cell appends exactly one placement of it |
| PdfOutput.PlacedAsAppend | backend/pdf_output.py:418-518 | appending a placement of the next drawn cell keeps the placements lined up with the drawn cells |
| PdfOutput.AssembleStepConsistent | backend/pdf_output.py:426-436 | drawing a cell keeps the cache consistent |
| PdfOutput.CachedPageConsistent | backend/pdf_output.py:435-436 | reusing a cached page's name keeps the cache consistent |
| PdfOutput.NewPageConsistent | backend/pdf_output.py:427-434 | naming a new page `P<counter>` and caching it keeps the cache consistent |
| PdfOutput.NewPageIsFresh | backend/pdf_output.py:427 | a page not in the cache has no XObject yet |
| PdfOutput.NamesInOrderAppend | backend/pdf_output.py:428-429 | the next XObject made is named after its creation index |
| PdfOutput.PagesDistinctAppend | backend/pdf_output.py:427-433 | adding an XObject for a fresh page keeps every page at most once |
| PdfOutput.CacheNamesAppend | backend/pdf_output.py:433 | caching the new page maps it to its XObject's name |
| PdfOutput.CoverCacheAppend | backend/pdf_output.py:433 | every cached page still has its XObject |
| PdfOutput.PlacementsNamedGrow | backend/pdf_output.py:433 | caching a new page keeps the names of earlier placements |
| PdfOutput.PlacementsNamedAppend | backend/pdf_output.py:435-518 | a placement under its page's cached name keeps every placement named so |
| PdfOutput.AssembledSheet | backend/pdf_output.py:365-531 | the sheet page of a side: oriented size in points, the cell loop's XObjects and placements, the side's marks; `AssembleSheet` computes it |
| PdfOutput.AssembledSheetNames | backend/pdf_output.py:411-518 | two placements share an XObject name exactly when they draw the same page; the `k`-th XObject is `P<k>`; no page has two XObjects; every placement draws a page the source has under an XObject that exists |
| PdfOutput.DrawnCellsExactly | backend/pdf_output.py:418-422 | a cell is drawn exactly when it is in the grid and holds a page the source has |
| PdfOutput.CellPages | backend/pdf_output.py:418 | the pages of the cells, slot for slot |
| PdfOutput.PlacedPages | backend/pdf_output.py:518 | the pages of the placements, one per placement |
| PdfOutput.DrawnCellsKeepCounts | backend/pdf_output.py:418-422 | dropping the cells that are not drawn keeps how often each page of the source occurs |
| PdfOutput.SheetDrawsCellPages | backend/pdf_output.py:365-531 | an assembled sheet draws each source page as often as the side's cells hold it |
| PdfOutput.SheetsDrawPageOnce | backend/pdf_output.py:365-531 | a page held by exactly one cell of one side is drawn once on that side's sheet and never on another |
| PdfOutput.BuildSides | backend/pdf_output.py:84-101 | the sides are those of the builder the mode selects: step and repeat, saddle stitch, or the sequential fill for the other modes |
| PdfOutput.Sources | backend/pdf_output.py:327-362 | the source pages as assembly reads them, page for page: the media box and the page's own /TrimBox entry |
| PdfOutput.SheetsFor | backend/pdf_output.py:365-531 | one assembled sheet page per side |
| PdfOutput.GenerateImposedPdf | backend/pdf_output.py:24-116 | the pipeline computes `Imposition`: analysis, trim, fit check, layout, the mode's sides and one assembled sheet per side, or the first error |
| PdfOutput.AssembleSheets | backend/pdf_output.py:365-531 | every side is assembled, in order |
| PdfOutput.SheetsForRendered | backend/pdf_output.py:84-101 | assembling the rendered sides gives `SheetsFor` of the requests |
| PdfOutput.Imposition | backend/pdf_output.py:24-116 | what the pipeline produces: one sheet page per side, or the first error; `ImpositionOutcome`, `ImpositionOk` and `ImposedPagesDrawnOnce` state it |
| PdfOutput.ImpositionOutcome | backend/pdf_output.py:24-116 | the pipeline fails with an analysis error exactly when analysis fails; after a good analysis it fails exactly when trim and bleed do not fit; on success it has one sheet page per side of the mode |
| PdfOutput.ImpositionOk | backend/pdf_output.py:24-116 | a successful run comes from a successful analysis of every page and an accepted plan with the same config, and its output is the assembled mode's sides |
| PdfOutput.ImposedPagesDrawnOnce | backend/pdf_output.py:84-101 | outside step and repeat every source page is drawn exactly once in the whole output, and in the sequential modes on sheet page `p / nUp` |
| PdfOutput.SideOfPlannedPage | backend/pdf_output.py:197-246 | the side a sequential page lands on is its number divided by the layout's cell count |
| PdfOutput.PlanDrawsOnce | backend/pdf_output.py:84-101 | for a planned job outside step and repeat, page `p` is drawn once, on one sheet page, and in the sequential modes on page `p / nUp` |
| PdfOutput.DrawnOnceSide | backend/pdf_output.py:84-101 | outside step and repeat exactly one cell of one side holds page `p`, in the sequential modes on side `p / nUp` |
| PdfOutput.OutputDrawsOnce | backend/pdf_output.py:365-531 | a page in exactly one slot of the requests is drawn once on that side's sheet page and on no other |
| Api.Status | backend/main.py:106-301 | a missing session or preset answers 404, every other refusal 400 |
| Api.LowerString | backend/main.py:106 | lower-cases the name letter by letter, keeping its length |
| Api.HasPdfExtension | backend/main.py:106 | `filename.lower().endswith(".pdf")`; `PdfExtensionIgnoresCase` states which names pass |
| Api.PdfExtensionIgnoresCase | backend/main.py:106 | the name passes exactly when it ends in `.pdf` in any mix of cases; an empty name never passes |
| Api.UploadCheck | backend/main.py:106-112 | a name without the `.pdf` extension is refused first, an empty body second, and the upload proceeds exactly when neither applies |
| Api.DistinctCard | backend/main.py:121-130 | a key list without repeats has as many keys as its set |
| Api.StoreSize | backend/main.py:121-130 | the dictionary holds as many sessions as the key list |
| Api.Put | backend/main.py:121-125 | `_sessions[id] = session`: a new key goes last, an existing one keeps its place with the new value |
| Api.Evict | backend/main.py:127-130 | the cleanup: with more than ten sessions the first inserted goes; `PutEvictKeepsCap` and `EvictOldest` state its effect |
| Api.Upload | backend/main.py:103-138 | what `upload_pdf` answers and the store it leaves; `UploadRefusals` and `UploadKeepsCap` state both |
| Api.UploadRefusals | backend/main.py:106-117 | a refused upload leaves the sessions alone; it is refused as not a PDF, as empty or by analysis, in that order, and accepted exactly when all three checks pass |
| Api.PutEvictKeepsCap | backend/main.py:121-130 | storing a session then cleaning up keeps at most ten distinct sessions, keeps the new one, drops only the oldest and only when an eleventh key came in, and leaves every other session as it was |
| Api.EvictOldest | backend/main.py:127-130 | with ten sessions stored a new id goes last and the first inserted id goes |
| Api.SnocDistinct | backend/main.py:121 | a new key appended keeps the keys distinct |
| Api.TailSnocMembers | backend/main.py:127-130 | dropping the oldest key and appending the new one leaves the new key and the other old keys |
| Api.UploadKeepsCap | backend/main.py:103-138 | every upload keeps the store within ten sessions; an accepted one stores the bytes, the name and the analysis under the new id and then cleans up |
| Api.SessionStore.constructor | backend/main.py:40 | the store starts empty |
| Api.SessionStore.UploadPdf | backend/main.py:103-138 | the reply and the new sessions are those of `Upload` on the old sessions, and the store stays within its cap |
| Api.SessionStore.PreviewFor | backend/main.py:141-199 | an unknown session is refused with "session not found"; a known one gets its preview, whose layout carries the grid after the bleed and position passes |
| Api.PreviewOf | backend/main.py:147-199 | the preview of a known session: the layout of sheet 0 holding the placed grid, that grid, the marks of sheet 1, the reported sheet, the effective trim and the page count; `PreviewTrim`, `PreviewRotation`, `PreviewSheet` and `PreviewGridKeepsSlots` state its parts |
| Api.PreviewSheet | backend/main.py:185-188 | the reported sheet is turned only for a landscape sheet entered taller than wide |
| Api.PreviewTrim | backend/main.py:150-170 | the preview's trim is the configured one unless a dimension is 0, then page 1's trim box, or its media box; it is turned exactly when the layout rotates the cells |
| Api.PreviewRotation | backend/main.py:162-170 | the preview's cells turn a quarter exactly when rotation is allowed and the turned grid holds strictly more cells |
| Api.PreviewSheetVersusLayout | backend/main.py:185-188 | the preview's sheet agrees with the layout's oriented sheet except for a portrait sheet entered wider than tall; a landscape preview is never taller than wide |
| Api.PreviewGridKeepsSlots | backend/main.py:172-177 | the preview grid has the layout's cells, slot for slot, same row, column and page, each with its clip rectangle set; the layout in the reply is sheet 0's layout holding that same grid, since the passes update the layout's own list of cells |
| Api.KeepNameChars | backend/main.py:247-248 | keeps only alphanumerics, `-`, `_` and space, and never lengthens the name |
| Api.KeepNameCharsCounts | backend/main.py:247-248 | every occurrence of a kept character is kept and every other character dropped |
| Api.DropLeadingSpace | backend/main.py:249 | a suffix of the name that starts with a non-space, all of whose cut-off prefix is space |
| Api.DropTrailingSpace | backend/main.py:249 | a prefix of the name that ends with a non-space, all of whose cut-off suffix is space |
| Api.Strip | backend/main.py:249 | `str.strip()`; `StripIsTrim`, `StripEnds` and `StripIdempotent` state what it keeps |
| Api.StripIsTrim | backend/main.py:249 | `strip` keeps one stretch of the string and cuts only whitespace on either side |
| Api.StripSlice | backend/main.py:249 | the stripped string is a slice of the input |
| Api.SliceOfSuffix | backend/main.py:249 | a prefix of a suffix is a slice |
| Api.StripTail | backend/main.py:249 | everything after the kept stretch is whitespace |
| Api.StripEnds | backend/main.py:249 | the stripped string starts and ends with a non-space |
| Api.StripIdempotent | backend/main.py:249 | stripping twice is stripping once |
| Api.KeepNameCharsKeepsKept | backend/main.py:247-248 | a name made only of kept characters passes the filter unchanged |
| Api.SafeName | backend/main.py:247-249 | the sanitised stem holds only kept characters |
| Api.SafeNameProperties | backend/main.py:247-249 | the sanitised stem holds only alphanumerics, `-`, `_` and space and neither starts nor ends with whitespace |
| Api.SafeNameIdempotent | backend/main.py:247-249 | sanitising a sanitised name changes nothing |
| Api.SavePreset | backend/main.py:244-256 | refuses exactly the names that sanitise to nothing, as an invalid preset name; otherwise stores the preset under its sanitised stem, replacing any of that stem |
| Api.BuiltinConfig | backend/main.py:47-100 | a built-in preset has the given name, mode, trim, sheet and gap, rotation allowed, and 3 mm uniform bleed |
| Api.GetPreset | backend/main.py:289-301 | a built-in id gives its built-in preset; otherwise a saved stem gives the saved preset; otherwise "preset not found", exactly when the id is neither |
| Api.SaveThenGet | backend/main.py:244-301 | a saved preset is found again under its sanitised stem unless a built-in has that id, and saving changes no other lookup |
| Api.BuiltinShadowsSaved | backend/main.py:47-100 | the built-in table `BuiltinPresets` has exactly the five ids, and each always answers with its built-in preset whatever is saved |

## Left out

- `backend/sheet_assembler.py` is not part of this model. It is a drawing wrapper that none of the modelled files call.
- PDF and drawing libraries are not modelled, because they are foreign code (`backend/pdf_output.py` 79-116, 390-416, 521-531 and 534-658). This covers opening and saving PDFs, creating Form XObjects and copying their resources, the marks overlay drawn with ReportLab, content-stream bytes, `%.4f` formatting and document metadata. An assembled sheet is modelled as its size, its placements (page, XObject name, clip and matrix), its XObjects and its marks.
- The content-stream reading and regular-expression scan of `detect_existing_marks` are not modelled (`backend/pdf_analyzer.py` 100-119, 166-253). The number of thin lines near the corners is an input, and only the final threshold of four is modelled.
- Opening the PDF and the encrypted-file refusal are not modelled (`backend/pdf_analyzer.py` 12-18), since both belong to the PDF parser. The page boxes, including `_extract_box`'s lookup of a missing box, are inputs.
- The HTTP layer is left out because it is framework plumbing (`backend/main.py` 1-37, 200-241, 259-286, 304-325). This covers FastAPI routing, CORS, streaming responses, `get_pdf`, `impose_pdf`'s mapping of errors to 400 and 500, `list_presets`, static file serving and uvicorn.
- Preset files are left out because they are file I/O. Saved presets are a map from file stem to preset, so writing and reading JSON is not modelled.
- `preview_imposition` turns any exception of the layout computation into a 400 (`backend/main.py` 161-164). The modelled layout computation always succeeds, so that refusal never arises.
- PdfOutput.SourceOf: assembly reads the page's `MediaBox` attribute, and the model gives it the media box the analysis found. A page whose media box the two read differently is not captured.
- IEEE floating point is left out: lengths are reals, so rounding error and overflow are not modelled.
- Numeric.CeilDiv: `math.ceil(n / d)` is computed on floats in the source. For the page counts it sees it is exact, and the model uses integer arithmetic.
- Api.LowerString: `str.lower()` is modelled on the ASCII letters only. Other characters are left unchanged, which is enough to decide the `.pdf` extension.
- Api.KeepNameChars: Python's Unicode `str.isalnum` is a parameter, a predicate on characters, and is not defined here.
- MarkPlacer.PlaceSlugInfo: the date text is a parameter standing for `datetime.now()` formatted as `%Y-%m-%d %H:%M`. The formatting itself is not modelled.
- PdfAnalyzer.AnalyzePdf: `round(v, 1)` is a parameter. The size warning compares the rounded sizes exactly as the source does, whatever that function is.
- Concurrency of the web server is left out: the session store is modelled as a single object updated one request at a time.
- The browser front end is not part of this model. That covers thumbnail rendering and drawing the preview sheet.

## Notes

These are observations about the source that the model reproduces as written.

- `preview_imposition` turns the reported sheet only for a landscape sheet entered taller than wide (`backend/main.py` 185-188). The layout also turns a portrait sheet entered wider than tall (`backend/imposition_engine.py` 21-28), so for such a sheet the preview reports a different size from the one the layout uses (`Api.PreviewSheetVersusLayout`).
- The mark placer positions registration marks, fold marks and the slug from `sheet_config.sheet_width` and `sheet_height` as configured, not from the oriented sheet (`backend/mark_placer.py` 161-170, 235-254, 266-267). Take a sheet entered as 320 x 450 mm and turned to landscape: the top registration mark and the slug are then placed above the 320 mm sheet height.
- Sheet assembly trims a page to its own /TrimBox entry and, without one, to its media box (`backend/pdf_output.py` 340-359). The analysis also takes the trim box the PDF library resolves for a page that has no entry of its own, an inherited or default one (`backend/pdf_analyzer.py` 109-116). For such a page the layout is computed for the trim the analysis found, while assembly aligns the media box on the cell (`PdfOutput.SourceBoxesAgreeWithAnalysis`).
- Step and repeat passes the page count as the slug's sheet total (`backend/pdf_output.py` 150-153). With duplex, each sheet holds two pages, so that total is about twice the number of sheets.
