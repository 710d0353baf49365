/** Per-cell bleed (which cell edges touch a filled neighbour) and the placement of
    the grid on the sheet. Both passes update the cells of a grid in place. */
module BleedManager {
  import opened Wrappers
  import opened Models
  import opened Utils
  import opened ImpositionEngine

  // ---------------------------------------------------------------- neighbours

  /** The grid position an edge faces. Rows count upward on the sheet, so the
      neighbour above ("top") is in the next row. */
  function NeighborPosition(row: int, col: int, e: Edge): (p: (int, int))
    ensures e == Top ==> p == (row + 1, col)
    ensures e == Bottom ==> p == (row - 1, col)
    ensures e == Left ==> p == (row, col - 1)
    ensures e == Right ==> p == (row, col + 1)
  {
    match e
    case Top => (row + 1, col)
    case Bottom => (row - 1, col)
    case Left => (row, col - 1)
    case Right => (row, col + 1)
  }

  /** The edge on the other side of a shared border. */
  function Opposite(e: Edge): (o: Edge)
    ensures (e == Top <==> o == Bottom) && (e == Bottom <==> o == Top)
    ensures (e == Left <==> o == Right) && (e == Right <==> o == Left)
  {
    match e
    case Top => Bottom
    case Bottom => Top
    case Left => Right
    case Right => Left
  }

  predicate At(c: GridCell, row: int, col: int)
  {
    c.row == row && c.col == col
  }

  /** The index of the first cell at `(row, col)` from index `i` on. */
  function FindFrom(grid: seq<GridCell>, row: int, col: int, i: nat): (r: Option<nat>)
    ensures r.Some? ==> i <= r.value < |grid| && At(grid[r.value], row, col) &&
                        forall j :: i <= j < r.value ==> !At(grid[j], row, col)
    ensures r.None? ==> forall j :: i <= j < |grid| ==> !At(grid[j], row, col)
    decreases |grid| - i
  {
    if i >= |grid| then None
    else if At(grid[i], row, col) then Some(i)
    else FindFrom(grid, row, col, i + 1)
  }

  /** Two grids with the same cell positions, index for index. */
  predicate SamePositions(g1: seq<GridCell>, g2: seq<GridCell>)
  {
    |g1| == |g2| && forall j :: 0 <= j < |g1| ==> g1[j].row == g2[j].row && g1[j].col == g2[j].col
  }

  /** Two grids with the same positions and the same pages, index for index. */
  predicate SameSlots(g1: seq<GridCell>, g2: seq<GridCell>)
  {
    SamePositions(g1, g2) && forall j :: 0 <= j < |g1| ==> g1[j].pageIndex == g2[j].pageIndex
  }

  lemma {:induction false} FindFromDependsOnPositions(g1: seq<GridCell>, g2: seq<GridCell>, row: int, col: int, i: nat)
    requires SamePositions(g1, g2)
    ensures FindFrom(g1, row, col, i) == FindFrom(g2, row, col, i)
    decreases |g1| - i
  {
    if i < |g1| {
      FindFromDependsOnPositions(g1, g2, row, col, i + 1);
    }
  }

  /** The index of the cell beyond edge `e`: none outside `[0, rows) x [0, cols)`,
      else the first cell at that position, if any. */
  function NeighborIndex(grid: seq<GridCell>, cell: GridCell, e: Edge, rows: int, cols: int): (r: Option<nat>)
    ensures r.Some? ==> (r.value < |grid| &&
              (grid[r.value].row, grid[r.value].col) == NeighborPosition(cell.row, cell.col, e) &&
              0 <= grid[r.value].row < rows && 0 <= grid[r.value].col < cols)
    ensures r.None? ==> var p := NeighborPosition(cell.row, cell.col, e);
              (!(0 <= p.0 < rows && 0 <= p.1 < cols) ||
               forall j :: 0 <= j < |grid| ==> !At(grid[j], p.0, p.1))
  {
    var p := NeighborPosition(cell.row, cell.col, e);
    if p.0 < 0 || p.0 >= rows then None
    else if p.1 < 0 || p.1 >= cols then None
    else FindFrom(grid, p.0, p.1, 0)
  }

  function NeighborOf(grid: seq<GridCell>, cell: GridCell, e: Edge, rows: int, cols: int): Option<GridCell>
  {
    var n := NeighborIndex(grid, cell, e, rows, cols);
    if n.Some? then Some(grid[n.value]) else None
  }

  /** `_get_neighbor`: scans the grid for the cell beyond edge `e`. */
  method GetNeighbor(grid: array<GridCell>, cell: GridCell, e: Edge, totalRows: int, totalCols: int)
    returns (neighbor: Option<GridCell>)
    ensures neighbor == NeighborOf(grid[..], cell, e, totalRows, totalCols)
  {
    var targetRow, targetCol := cell.row, cell.col;
    match e {
      case Top => targetRow := cell.row + 1;
      case Bottom => targetRow := cell.row - 1;
      case Left => targetCol := cell.col - 1;
      case Right => targetCol := cell.col + 1;
    }
    assert (targetRow, targetCol) == NeighborPosition(cell.row, cell.col, e);
    if targetRow < 0 || targetRow >= totalRows {
      return None;
    }
    if targetCol < 0 || targetCol >= totalCols {
      return None;
    }
    for i := 0 to grid.Length
      invariant FindFrom(grid[..], targetRow, targetCol, 0) == FindFrom(grid[..], targetRow, targetCol, i)
    {
      if grid[i].row == targetRow && grid[i].col == targetCol {
        assert FindFrom(grid[..], targetRow, targetCol, i) == Some(i);
        return Some(grid[i]);
      }
    }
    assert FindFrom(grid[..], targetRow, targetCol, grid.Length) == None;
    return None;
  }

  // ---------------------------------------------------------------- per-cell bleed

  /** `_get_bleed_for_edge`: the configured bleed of one edge. */
  function BleedForEdge(b: BleedConfig, e: Edge): (v: real)
    ensures e == Top ==> v == b.top
    ensures e == Bottom ==> v == b.bottom
    ensures e == Left ==> v == b.left
    ensures e == Right ==> v == b.right
  {
    b.Get(e)
  }

  /** `_set_edge_bleed`: the given edge takes `v`, the other three keep theirs. */
  function SetEdgeBleed(b: EdgeBleed, e: Edge, v: real): (r: EdgeBleed)
    ensures r.Get(e) == v
    ensures forall f: Edge :: f != e ==> r.Get(f) == b.Get(f)
  {
    match e
    case Top => b.(top := v)
    case Bottom => b.(bottom := v)
    case Left => b.(left := v)
    case Right => b.(right := v)
  }

  /** `_set_interior_flag`: the given edge takes `v`, the other three keep theirs. */
  function SetInteriorFlag(f: EdgeFlags, e: Edge, v: bool): (r: EdgeFlags)
    ensures r.Get(e) == v
    ensures forall g: Edge :: g != e ==> r.Get(g) == f.Get(g)
  {
    match e
    case Top => f.(top := v)
    case Bottom => f.(bottom := v)
    case Left => f.(left := v)
    case Right => f.(right := v)
  }

  /** An edge is interior when there is no gap between items and the in-bounds
      cell beyond it shows a page. */
  predicate EdgeInterior(grid: seq<GridCell>, cell: GridCell, e: Edge, rows: int, cols: int, gap: real)
  {
    !(gap > 0.0) && NeighborOf(grid, cell, e, rows, cols).Some? &&
    NeighborOf(grid, cell, e, rows, cols).value.pageIndex.Some?
  }

  /** Interior edges get no bleed, every other edge the configured one. */
  function EdgeBleedFor(grid: seq<GridCell>, cell: GridCell, e: Edge, rows: int, cols: int,
                        bleed: BleedConfig, gap: real): real
  {
    if EdgeInterior(grid, cell, e, rows, cols, gap) then 0.0 else bleed.Get(e)
  }

  /** One cell after the bleed pass. */
  function CellWithBleed(grid: seq<GridCell>, cell: GridCell, rows: int, cols: int,
                         bleed: BleedConfig, gap: real): (r: GridCell)
    ensures cell.pageIndex.None? ==> r == cell
    ensures cell.pageIndex.Some? ==> r == cell.(bleedPerEdge := r.bleedPerEdge, isInteriorEdge := r.isInteriorEdge)
    ensures cell.pageIndex.Some? ==> forall e: Edge ::
              r.isInteriorEdge.Get(e) == EdgeInterior(grid, cell, e, rows, cols, gap) &&
              r.bleedPerEdge.Get(e) == EdgeBleedFor(grid, cell, e, rows, cols, bleed, gap)
  {
    EdgeCases();
    if cell.pageIndex.None? then cell
    else cell.(
      bleedPerEdge := EdgeBleed(
        EdgeBleedFor(grid, cell, Top, rows, cols, bleed, gap), EdgeBleedFor(grid, cell, Bottom, rows, cols, bleed, gap),
        EdgeBleedFor(grid, cell, Left, rows, cols, bleed, gap), EdgeBleedFor(grid, cell, Right, rows, cols, bleed, gap)),
      isInteriorEdge := EdgeFlags(
        EdgeInterior(grid, cell, Top, rows, cols, gap), EdgeInterior(grid, cell, Bottom, rows, cols, gap),
        EdgeInterior(grid, cell, Left, rows, cols, gap), EdgeInterior(grid, cell, Right, rows, cols, gap)))
  }

  /** The grid after the bleed pass: cells without a page are left as they were;
      a filled cell's edge is interior, with no bleed, exactly when the in-bounds
      cell beyond it shows a page and there is no gap; all other edges get the
      configured bleed. Nothing but bleeds and flags changes. */
  function PerCellBleed(grid: seq<GridCell>, rows: int, cols: int, bleed: BleedConfig, gap: real): (r: seq<GridCell>)
    ensures |r| == |grid| && SameSlots(r, grid)
    ensures forall i :: 0 <= i < |grid| && grid[i].pageIndex.None? ==> r[i] == grid[i]
    ensures forall i, e: Edge :: 0 <= i < |grid| && grid[i].pageIndex.Some? ==>
              r[i].isInteriorEdge.Get(e) == EdgeInterior(grid, grid[i], e, rows, cols, gap) &&
              r[i].bleedPerEdge.Get(e) == (if r[i].isInteriorEdge.Get(e) then 0.0 else bleed.Get(e))
    ensures gap > 0.0 ==> forall i, e: Edge :: 0 <= i < |grid| && grid[i].pageIndex.Some? ==>
              !r[i].isInteriorEdge.Get(e) && r[i].bleedPerEdge.Get(e) == bleed.Get(e)
    ensures forall i :: 0 <= i < |grid| ==>
              r[i].rotation == grid[i].rotation && r[i].clipRect == grid[i].clipRect &&
              r[i].trimOriginX == grid[i].trimOriginX && r[i].trimOriginY == grid[i].trimOriginY
  {
    seq(|grid|, i requires 0 <= i < |grid| => CellWithBleed(grid, grid[i], rows, cols, bleed, gap))
  }

  /** The bleed pass depends on the positions and pages of the cells only. */
  lemma NeighborDependsOnSlots(g1: seq<GridCell>, g2: seq<GridCell>, cell: GridCell, e: Edge, rows: int, cols: int)
    requires SameSlots(g1, g2)
    ensures NeighborIndex(g1, cell, e, rows, cols) == NeighborIndex(g2, cell, e, rows, cols)
    ensures NeighborOf(g1, cell, e, rows, cols).Some? == NeighborOf(g2, cell, e, rows, cols).Some?
    ensures NeighborOf(g1, cell, e, rows, cols).Some? ==>
              NeighborOf(g1, cell, e, rows, cols).value.pageIndex == NeighborOf(g2, cell, e, rows, cols).value.pageIndex
  {
    var p := NeighborPosition(cell.row, cell.col, e);
    FindFromDependsOnPositions(g1, g2, p.0, p.1, 0);
  }

  lemma EdgeValuesDetermine(b: EdgeBleed, f: EdgeFlags, b2: EdgeBleed, f2: EdgeFlags)
    requires forall m :: 0 <= m < |Edges| ==> b.Get(Edges[m]) == b2.Get(Edges[m]) && f.Get(Edges[m]) == f2.Get(Edges[m])
    ensures b == b2 && f == f2
  {
    assert Edges[0] == Top && Edges[1] == Bottom && Edges[2] == Left && Edges[3] == Right;
  }

  /** The inner loop of `calculate_per_cell_bleed`: the bleeds and interior flags
      of one filled cell, edge by edge. */
  method EdgeValues(grid: array<GridCell>, cell: GridCell, rows: int, cols: int, bleedConfig: BleedConfig, gap: real)
    returns (bleedValues: EdgeBleed, interiorFlags: EdgeFlags)
    requires cell.pageIndex.Some?
    ensures bleedValues == CellWithBleed(grid[..], cell, rows, cols, bleedConfig, gap).bleedPerEdge
    ensures interiorFlags == CellWithBleed(grid[..], cell, rows, cols, bleedConfig, gap).isInteriorEdge
  {
    bleedValues := ZeroEdgeBleed;
    interiorFlags := NoInteriorEdges;
    for k := 0 to |Edges|
      invariant forall m :: 0 <= m < k ==>
                  bleedValues.Get(Edges[m]) == EdgeBleedFor(grid[..], cell, Edges[m], rows, cols, bleedConfig, gap) &&
                  interiorFlags.Get(Edges[m]) == EdgeInterior(grid[..], cell, Edges[m], rows, cols, gap)
    {
      var edge := Edges[k];
      var neighbor := GetNeighbor(grid, cell, edge, rows, cols);
      var bleedVal := BleedForEdge(bleedConfig, edge);
      if gap > 0.0 {
        bleedValues := SetEdgeBleed(bleedValues, edge, bleedVal);
        interiorFlags := SetInteriorFlag(interiorFlags, edge, false);
      } else if neighbor.None? {
        bleedValues := SetEdgeBleed(bleedValues, edge, bleedVal);
        interiorFlags := SetInteriorFlag(interiorFlags, edge, false);
      } else if neighbor.value.pageIndex.None? {
        bleedValues := SetEdgeBleed(bleedValues, edge, bleedVal);
        interiorFlags := SetInteriorFlag(interiorFlags, edge, false);
      } else {
        bleedValues := SetEdgeBleed(bleedValues, edge, 0.0);
        interiorFlags := SetInteriorFlag(interiorFlags, edge, true);
      }
    }
    ghost var expected := CellWithBleed(grid[..], cell, rows, cols, bleedConfig, gap);
    EdgeValuesDetermine(bleedValues, interiorFlags, expected.bleedPerEdge, expected.isInteriorEdge);
  }

  /** The result of the bleed pass on a cell depends on the positions and pages
      of the grid only. */
  lemma CellWithBleedDependsOnSlots(g1: seq<GridCell>, g2: seq<GridCell>, cell: GridCell, rows: int, cols: int,
                                    bleed: BleedConfig, gap: real)
    requires SameSlots(g1, g2)
    ensures CellWithBleed(g1, cell, rows, cols, bleed, gap) == CellWithBleed(g2, cell, rows, cols, bleed, gap)
  {
    NeighborDependsOnSlots(g1, g2, cell, Top, rows, cols);
    NeighborDependsOnSlots(g1, g2, cell, Bottom, rows, cols);
    NeighborDependsOnSlots(g1, g2, cell, Left, rows, cols);
    NeighborDependsOnSlots(g1, g2, cell, Right, rows, cols);
  }

  /** `calculate_per_cell_bleed`: sets each filled cell's bleeds and interior
      flags, edge by edge, looking its neighbours up in the grid being updated. */
  method CalculatePerCellBleed(grid: array<GridCell>, rows: int, cols: int, bleedConfig: BleedConfig, gap: real)
    modifies grid
    ensures grid[..] == PerCellBleed(old(grid[..]), rows, cols, bleedConfig, gap)
  {
    ghost var g0 := grid[..];
    for i := 0 to grid.Length
      invariant SameSlots(grid[..], g0)
      invariant forall j :: 0 <= j < i ==> grid[j] == CellWithBleed(g0, g0[j], rows, cols, bleedConfig, gap)
      invariant forall j :: i <= j < grid.Length ==> grid[j] == g0[j]
    {
      var cell := grid[i];
      if cell.pageIndex.Some? {
        var bleedValues, interiorFlags := EdgeValues(grid, cell, rows, cols, bleedConfig, gap);
        CellWithBleedDependsOnSlots(grid[..], g0, cell, rows, cols, bleedConfig, gap);
        grid[i] := cell.(bleedPerEdge := bleedValues, isInteriorEdge := interiorFlags);
      }
    }
  }

  /** No two cells share a position. */
  predicate DistinctPositions(g: seq<GridCell>)
  {
    forall i, j :: 0 <= i < j < |g| ==> !At(g[j], g[i].row, g[i].col)
  }

  lemma FindFromFindsUnique(g: seq<GridCell>, b: nat)
    requires DistinctPositions(g) && b < |g|
    ensures FindFrom(g, g[b].row, g[b].col, 0) == Some(b)
  {
    assert At(g[b], g[b].row, g[b].col);
    forall j | 0 <= j < b
      ensures !At(g[j], g[b].row, g[b].col)
    {
      assert !At(g[b], g[j].row, g[j].col);
    }
  }

  /** With distinct positions, an edge is interior exactly when some filled cell
      sits at the in-bounds position beyond it (and there is no gap). */
  lemma InteriorIffFilledNeighbor(grid: seq<GridCell>, cell: GridCell, e: Edge, rows: int, cols: int, gap: real)
    requires DistinctPositions(grid)
    ensures EdgeInterior(grid, cell, e, rows, cols, gap) <==>
              !(gap > 0.0) &&
              (exists j :: 0 <= j < |grid| && (grid[j].row, grid[j].col) == NeighborPosition(cell.row, cell.col, e) &&
                 0 <= grid[j].row < rows && 0 <= grid[j].col < cols && grid[j].pageIndex.Some?)
  {
    var p := NeighborPosition(cell.row, cell.col, e);
    var n := NeighborIndex(grid, cell, e, rows, cols);
    if EdgeInterior(grid, cell, e, rows, cols, gap) {
      var j := n.value;
      assert 0 <= j < |grid| && (grid[j].row, grid[j].col) == p && grid[j].pageIndex.Some?;
    }
    if !(gap > 0.0) && (exists j :: 0 <= j < |grid| && (grid[j].row, grid[j].col) == p &&
                          0 <= grid[j].row < rows && 0 <= grid[j].col < cols && grid[j].pageIndex.Some?) {
      var j :| 0 <= j < |grid| && (grid[j].row, grid[j].col) == p &&
                0 <= grid[j].row < rows && 0 <= grid[j].col < cols && grid[j].pageIndex.Some?;
      FindFromFindsUnique(grid, j);
      assert n == Some(j);
    }
  }

  /** Interior edges are symmetric: when a filled, in-bounds cell's edge `e` is
      interior, the neighbour beyond it exists and its opposite edge is interior. */
  lemma InteriorSymmetric(grid: seq<GridCell>, a: nat, e: Edge, rows: int, cols: int, gap: real)
    requires DistinctPositions(grid) && a < |grid|
    requires grid[a].pageIndex.Some? && 0 <= grid[a].row < rows && 0 <= grid[a].col < cols
    requires EdgeInterior(grid, grid[a], e, rows, cols, gap)
    ensures var b := NeighborIndex(grid, grid[a], e, rows, cols);
              b.Some? && EdgeInterior(grid, grid[b.value], Opposite(e), rows, cols, gap)
  {
    var b := NeighborIndex(grid, grid[a], e, rows, cols).value;
    assert NeighborPosition(grid[b].row, grid[b].col, Opposite(e)) == (grid[a].row, grid[a].col);
    FindFromFindsUnique(grid, a);
  }

  /** The bleed pass, read back on the grid it produced: interior edges carry no
      bleed and the flags of two filled neighbours agree across their border. */
  lemma PerCellBleedSymmetric(grid: seq<GridCell>, a: nat, e: Edge, rows: int, cols: int, bleed: BleedConfig, gap: real)
    requires DistinctPositions(grid) && a < |grid|
    requires grid[a].pageIndex.Some? && 0 <= grid[a].row < rows && 0 <= grid[a].col < cols
    ensures var r := PerCellBleed(grid, rows, cols, bleed, gap);
      r[a].isInteriorEdge.Get(e) ==>
        r[a].bleedPerEdge.Get(e) == 0.0 &&
        var b := NeighborIndex(grid, grid[a], e, rows, cols);
        b.Some? && r[b.value].isInteriorEdge.Get(Opposite(e)) && r[b.value].bleedPerEdge.Get(Opposite(e)) == 0.0
  {
    var r := PerCellBleed(grid, rows, cols, bleed, gap);
    if r[a].isInteriorEdge.Get(e) {
      InteriorSymmetric(grid, a, e, rows, cols, gap);
    }
  }

  // ---------------------------------------------------------------- positions

  /** The extent of the grid's trims plus its outer bleed; with a gap, each cell
      takes trim, both bleeds and the gap, and the last one has no trailing gap. */
  function GridExtent(rows: int, cols: int, trimW: real, trimH: real, bleed: BleedConfig, gap: real): (real, real)
  {
    if gap == 0.0 then
      (cols as real * trimW + bleed.left + bleed.right, rows as real * trimH + bleed.top + bleed.bottom)
    else
      (cols as real * Pitch(trimW, bleed.left, bleed.right, gap) - gap,
       rows as real * Pitch(trimH, bleed.top, bleed.bottom, gap) - gap)
  }

  /** Distance between the trim origins of neighbouring cells: butted trims without
      a gap, else trim, both bleeds and the gap. */
  function Pitch(trim: real, before: real, after: real, gap: real): real
  {
    if gap == 0.0 then trim else trim + before + after + gap
  }

  /** The trim origin of cell (0, 0): the grid centred on the oriented sheet, moved
      in by the left and bottom bleed. */
  function GridOffset(sheet: SheetConfig, rows: int, cols: int, bleed: BleedConfig, gap: real,
                      trimW: real, trimH: real): (real, real)
  {
    var size := OrientSheet(sheet);
    var extent := GridExtent(rows, cols, trimW, trimH, bleed, gap);
    ((size.0 - extent.0) / 2.0 + bleed.left, (size.1 - extent.1) / 2.0 + bleed.bottom)
  }

  /** A cell's trim rectangle. */
  function TrimRect(c: GridCell, trimW: real, trimH: real): Rectangle
  {
    Rectangle(c.trimOriginX, c.trimOriginY, trimW, trimH)
  }

  /** A cell placed on the sheet: its trim origin from its row and column, and its
      clip rectangle, the trim rectangle grown by the cell's own bleeds. */
  function PlaceCell(c: GridCell, sheet: SheetConfig, rows: int, cols: int, bleed: BleedConfig, gap: real,
                     trimW: real, trimH: real): (r: GridCell)
    ensures r == c.(trimOriginX := r.trimOriginX, trimOriginY := r.trimOriginY, clipRect := r.clipRect)
    ensures r.clipRect == Some(ExpandRect(TrimRect(r, trimW, trimH), c.bleedPerEdge.top,
                                          c.bleedPerEdge.bottom, c.bleedPerEdge.left, c.bleedPerEdge.right))
  {
    var off := GridOffset(sheet, rows, cols, bleed, gap, trimW, trimH);
    var ox := off.0 + c.col as real * Pitch(trimW, bleed.left, bleed.right, gap);
    var oy := off.1 + c.row as real * Pitch(trimH, bleed.top, bleed.bottom, gap);
    c.(trimOriginX := ox, trimOriginY := oy,
       clipRect := Some(Rectangle(ox - c.bleedPerEdge.left, oy - c.bleedPerEdge.bottom,
                                  trimW + c.bleedPerEdge.left + c.bleedPerEdge.right,
                                  trimH + c.bleedPerEdge.top + c.bleedPerEdge.bottom)))
  }

  function CellPositions(grid: seq<GridCell>, sheet: SheetConfig, rows: int, cols: int, bleed: BleedConfig,
                         gap: real, trimW: real, trimH: real): (r: seq<GridCell>)
    ensures |r| == |grid|
    ensures forall i :: 0 <= i < |grid| ==> r[i] == PlaceCell(grid[i], sheet, rows, cols, bleed, gap, trimW, trimH)
  {
    seq(|grid|, i requires 0 <= i < |grid| => PlaceCell(grid[i], sheet, rows, cols, bleed, gap, trimW, trimH))
  }

  /** The grid-extent and cell-pitch step of `calculate_cell_positions`. */
  method GridGeometry(rows: int, cols: int, bleedConfig: BleedConfig, gap: real, trimW: real, trimH: real)
    returns (gridW: real, gridH: real, pitchX: real, pitchY: real)
    ensures gridW == GridExtent(rows, cols, trimW, trimH, bleedConfig, gap).0
    ensures gridH == GridExtent(rows, cols, trimW, trimH, bleedConfig, gap).1
    ensures pitchX == Pitch(trimW, bleedConfig.left, bleedConfig.right, gap)
    ensures pitchY == Pitch(trimH, bleedConfig.top, bleedConfig.bottom, gap)
  {
    if gap == 0.0 {
      gridW := cols as real * trimW + bleedConfig.left + bleedConfig.right;
      gridH := rows as real * trimH + bleedConfig.top + bleedConfig.bottom;
      pitchX, pitchY := trimW, trimH;
    } else {
      pitchX := trimW + bleedConfig.left + bleedConfig.right + gap;
      pitchY := trimH + bleedConfig.top + bleedConfig.bottom + gap;
      gridW := cols as real * pitchX - gap;
      gridH := rows as real * pitchY - gap;
    }
  }

  /** `calculate_cell_positions`: places every cell of the grid in place. */
  method CalculateCellPositions(grid: array<GridCell>, rows: int, cols: int, sheetConfig: SheetConfig,
                                bleedConfig: BleedConfig, gap: real, trimW: real, trimH: real)
    modifies grid
    ensures grid[..] == CellPositions(old(grid[..]), sheetConfig, rows, cols, bleedConfig, gap, trimW, trimH)
  {
    var sheetW, sheetH := sheetConfig.sheetWidth, sheetConfig.sheetHeight;
    if sheetConfig.orientation == "landscape" && sheetW < sheetH {
      sheetW, sheetH := sheetH, sheetW;
    } else if sheetConfig.orientation == "portrait" && sheetW > sheetH {
      sheetW, sheetH := sheetH, sheetW;
    }
    var gridW, gridH, pitchX, pitchY := GridGeometry(rows, cols, bleedConfig, gap, trimW, trimH);
    assert (sheetW, sheetH) == OrientSheet(sheetConfig);
    var offsetX := (sheetW - gridW) / 2.0 + bleedConfig.left;
    var offsetY := (sheetH - gridH) / 2.0 + bleedConfig.bottom;
    assert (offsetX, offsetY) == GridOffset(sheetConfig, rows, cols, bleedConfig, gap, trimW, trimH);
    ghost var g0 := grid[..];
    for i := 0 to grid.Length
      invariant forall j :: 0 <= j < i ==> grid[j] == PlaceCell(g0[j], sheetConfig, rows, cols, bleedConfig, gap, trimW, trimH)
      invariant forall j :: i <= j < grid.Length ==> grid[j] == g0[j]
    {
      grid[i] := PositionCell(grid[i], sheetConfig, rows, cols, bleedConfig, gap, trimW, trimH,
                              offsetX, offsetY, pitchX, pitchY);
    }
  }

  /** The body of `calculate_cell_positions`' cell loop: the cell's trim origin
      from the grid offset and its row and column, and its clip rectangle. */
  method PositionCell(cell: GridCell, sheetConfig: SheetConfig, rows: int, cols: int, bleedConfig: BleedConfig,
                      gap: real, trimW: real, trimH: real, offsetX: real, offsetY: real, pitchX: real, pitchY: real)
    returns (placed: GridCell)
    requires (offsetX, offsetY) == GridOffset(sheetConfig, rows, cols, bleedConfig, gap, trimW, trimH)
    requires pitchX == Pitch(trimW, bleedConfig.left, bleedConfig.right, gap)
    requires pitchY == Pitch(trimH, bleedConfig.top, bleedConfig.bottom, gap)
    ensures placed == PlaceCell(cell, sheetConfig, rows, cols, bleedConfig, gap, trimW, trimH)
  {
    var ox := offsetX + cell.col as real * pitchX;
    var oy := offsetY + cell.row as real * pitchY;
    ghost var target := PlaceCell(cell, sheetConfig, rows, cols, bleedConfig, gap, trimW, trimH);
    assert target.trimOriginX == ox && target.trimOriginY == oy;
    placed := cell.(trimOriginX := ox, trimOriginY := oy,
      clipRect := Some(Rectangle(ox - cell.bleedPerEdge.left, oy - cell.bleedPerEdge.bottom,
                                 trimW + cell.bleedPerEdge.left + cell.bleedPerEdge.right,
                                 trimH + cell.bleedPerEdge.top + cell.bleedPerEdge.bottom)));
  }

  /** A cell with non-negative bleeds has a clip rectangle covering its trim. */
  lemma ClipCoversTrim(c: GridCell, sheet: SheetConfig, rows: int, cols: int, bleed: BleedConfig, gap: real,
                       trimW: real, trimH: real)
    requires c.bleedPerEdge.top >= 0.0 && c.bleedPerEdge.bottom >= 0.0
    requires c.bleedPerEdge.left >= 0.0 && c.bleedPerEdge.right >= 0.0
    ensures var r := PlaceCell(c, sheet, rows, cols, bleed, gap, trimW, trimH);
      r.clipRect.Some? && Contains(r.clipRect.value, TrimRect(r, trimW, trimH))
  {
  }

  /** Cells next to each other in a row have trim origins one pitch apart: exactly
      the trim width when items are butted. */
  lemma AdjacentCellsOnePitchApart(a: GridCell, b: GridCell, sheet: SheetConfig, rows: int, cols: int,
                                   bleed: BleedConfig, gap: real, trimW: real, trimH: real)
    requires b.row == a.row && b.col == a.col + 1
    ensures var pa := PlaceCell(a, sheet, rows, cols, bleed, gap, trimW, trimH);
            var pb := PlaceCell(b, sheet, rows, cols, bleed, gap, trimW, trimH);
      pb.trimOriginY == pa.trimOriginY &&
      pb.trimOriginX - pa.trimOriginX == (if gap == 0.0 then trimW else trimW + bleed.left + bleed.right + gap)
  {
    var pitch := Pitch(trimW, bleed.left, bleed.right, gap);
    assert (a.col + 1) as real * pitch == a.col as real * pitch + pitch;
  }

  /** ... and likewise for cells above each other in a column. */
  lemma StackedCellsOnePitchApart(a: GridCell, b: GridCell, sheet: SheetConfig, rows: int, cols: int,
                                  bleed: BleedConfig, gap: real, trimW: real, trimH: real)
    requires b.col == a.col && b.row == a.row + 1
    ensures var pa := PlaceCell(a, sheet, rows, cols, bleed, gap, trimW, trimH);
            var pb := PlaceCell(b, sheet, rows, cols, bleed, gap, trimW, trimH);
      pb.trimOriginX == pa.trimOriginX &&
      pb.trimOriginY - pa.trimOriginY == (if gap == 0.0 then trimH else trimH + bleed.top + bleed.bottom + gap)
  {
    var pitch := Pitch(trimH, bleed.top, bleed.bottom, gap);
    assert (a.row + 1) as real * pitch == a.row as real * pitch + pitch;
  }

  /** The grid is centred: with the configured outer bleed on the first and last
      column, the space left of the first column's clip equals the space right of
      the last column's clip, and likewise below the first row and above the last. */
  lemma GridCentered(first: GridCell, last: GridCell, sheet: SheetConfig, rows: int, cols: int,
                     bleed: BleedConfig, gap: real, trimW: real, trimH: real)
    requires first.col == 0 && last.col == cols - 1 && first.row == 0 && last.row == rows - 1
    requires first.bleedPerEdge.left == bleed.left && last.bleedPerEdge.right == bleed.right
    requires first.bleedPerEdge.bottom == bleed.bottom && last.bleedPerEdge.top == bleed.top
    ensures var size := OrientSheet(sheet);
            var f := PlaceCell(first, sheet, rows, cols, bleed, gap, trimW, trimH).clipRect.value;
            var l := PlaceCell(last, sheet, rows, cols, bleed, gap, trimW, trimH).clipRect.value;
      f.LeftEdge() == size.0 - l.RightEdge() && f.BottomEdge() == size.1 - l.TopEdge()
  {
    GridCenteredAcross(first, last, sheet, rows, cols, bleed, gap, trimW, trimH);
    GridCenteredUp(first, last, sheet, rows, cols, bleed, gap, trimW, trimH);
  }

  lemma GridCenteredAcross(first: GridCell, last: GridCell, sheet: SheetConfig, rows: int, cols: int,
                           bleed: BleedConfig, gap: real, trimW: real, trimH: real)
    requires first.col == 0 && last.col == cols - 1
    requires first.bleedPerEdge.left == bleed.left && last.bleedPerEdge.right == bleed.right
    ensures PlaceCell(first, sheet, rows, cols, bleed, gap, trimW, trimH).clipRect.value.LeftEdge() ==
            OrientSheet(sheet).0 - PlaceCell(last, sheet, rows, cols, bleed, gap, trimW, trimH).clipRect.value.RightEdge()
  {
    var px := Pitch(trimW, bleed.left, bleed.right, gap);
    assert (cols - 1) as real * px == cols as real * px - px;
  }

  lemma GridCenteredUp(first: GridCell, last: GridCell, sheet: SheetConfig, rows: int, cols: int,
                       bleed: BleedConfig, gap: real, trimW: real, trimH: real)
    requires first.row == 0 && last.row == rows - 1
    requires first.bleedPerEdge.bottom == bleed.bottom && last.bleedPerEdge.top == bleed.top
    ensures PlaceCell(first, sheet, rows, cols, bleed, gap, trimW, trimH).clipRect.value.BottomEdge() ==
            OrientSheet(sheet).1 - PlaceCell(last, sheet, rows, cols, bleed, gap, trimW, trimH).clipRect.value.TopEdge()
  {
    var py := Pitch(trimH, bleed.top, bleed.bottom, gap);
    assert (rows - 1) as real * py == rows as real * py - py;
  }
}
