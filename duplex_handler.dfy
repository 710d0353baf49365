/** The back side of a duplex sheet: the front grid mirrored about the flip edge,
    with bleeds and positions worked out again; and the sequential assignment of
    pages to the cells of a back grid. */
module DuplexHandler {
  import opened Wrappers
  import opened Models
  import opened ImpositionEngine
  import opened BleedManager

  // ---------------------------------------------------------------- mirroring

  /** A cell as it lands on the back. A long-edge flip turns the sheet over left to
      right, so columns reverse; a short-edge flip turns it over top to bottom, so
      rows reverse and the page is turned half round. Nothing else changes. */
  function MirrorCell(c: GridCell, flip: FlipEdge, rows: int, cols: int): (r: GridCell)
    ensures r.pageIndex == c.pageIndex && r.clipRect == c.clipRect
    ensures r.bleedPerEdge == c.bleedPerEdge && r.isInteriorEdge == c.isInteriorEdge
    ensures r.trimOriginX == c.trimOriginX && r.trimOriginY == c.trimOriginY
    ensures flip == Long ==> r.row == c.row && r.rotation == c.rotation && r.col + c.col == cols - 1
    ensures flip == Short ==> r.col == c.col && r.row + c.row == rows - 1
    ensures flip == Short ==> 0 <= r.rotation < 360 && (r.rotation - c.rotation - 180) % 360 == 0
    ensures 0 <= c.col < cols && 0 <= c.row < rows ==> 0 <= r.col < cols && 0 <= r.row < rows
  {
    match flip
    case Long => c.(col := (cols - 1) - c.col)
    case Short => c.(row := (rows - 1) - c.row, rotation := (c.rotation + 180) % 360)
  }

  /** The mirrored grid, cell for cell. */
  function Mirror(g: seq<GridCell>, flip: FlipEdge, rows: int, cols: int): (r: seq<GridCell>)
    ensures |r| == |g|
    ensures forall i :: 0 <= i < |g| ==> r[i] == MirrorCell(g[i], flip, rows, cols)
  {
    seq(|g|, i requires 0 <= i < |g| => MirrorCell(g[i], flip, rows, cols))
  }

  /** Long-edge mirroring undoes itself. */
  lemma MirrorLongInvolution(c: GridCell, rows: int, cols: int)
    ensures MirrorCell(MirrorCell(c, Long, rows, cols), Long, rows, cols) == c
  {
  }

  /** Short-edge mirroring undoes itself for a cell whose rotation is already
      normalised to `[0, 360)`. */
  lemma MirrorShortInvolution(c: GridCell, rows: int, cols: int)
    requires 0 <= c.rotation < 360
    ensures MirrorCell(MirrorCell(c, Short, rows, cols), Short, rows, cols) == c
  {
    var m := MirrorCell(c, Short, rows, cols);
    if c.rotation < 180 {
      assert m.rotation == c.rotation + 180;
    } else {
      assert m.rotation == c.rotation - 180;
    }
  }

  lemma MirrorGridInvolution(g: seq<GridCell>, flip: FlipEdge, rows: int, cols: int)
    requires flip == Short ==> forall i :: 0 <= i < |g| ==> 0 <= g[i].rotation < 360
    ensures Mirror(Mirror(g, flip, rows, cols), flip, rows, cols) == g
  {
    var m := Mirror(Mirror(g, flip, rows, cols), flip, rows, cols);
    forall i | 0 <= i < |g|
      ensures m[i] == g[i]
    {
      if flip == Long {
        MirrorLongInvolution(g[i], rows, cols);
      } else {
        MirrorShortInvolution(g[i], rows, cols);
      }
    }
  }

  /** Where a grid position lands on the back. */
  function MirrorPos(flip: FlipEdge, rows: int, cols: int, row: int, col: int): (int, int)
  {
    match flip
    case Long => (row, (cols - 1) - col)
    case Short => ((rows - 1) - row, col)
  }

  /** The edge a front edge becomes on the back: left and right trade places under
      a long-edge flip, top and bottom under a short-edge flip. */
  function MirrorEdge(flip: FlipEdge, e: Edge): (m: Edge)
    ensures flip == Long ==> (m == Top <==> e == Top) && (m == Bottom <==> e == Bottom)
    ensures flip == Short ==> (m == Left <==> e == Left) && (m == Right <==> e == Right)
  {
    match (flip, e)
    case (Long, Left) => Right
    case (Long, Right) => Left
    case (Short, Top) => Bottom
    case (Short, Bottom) => Top
    case _ => e
  }

  lemma MirrorEdgeInvolution(flip: FlipEdge, e: Edge)
    ensures MirrorEdge(flip, MirrorEdge(flip, e)) == e
  {
  }

  lemma {:induction false} FindFromMirrored(g: seq<GridCell>, flip: FlipEdge, rows: int, cols: int,
                                            row: int, col: int, i: nat)
    ensures var p := MirrorPos(flip, rows, cols, row, col);
            FindFrom(Mirror(g, flip, rows, cols), p.0, p.1, i) == FindFrom(g, row, col, i)
    decreases |g| - i
  {
    if i < |g| {
      FindFromMirrored(g, flip, rows, cols, row, col, i + 1);
    }
  }

  /** The cell beyond a mirrored edge on the back is the mirror of the cell beyond
      the edge on the front. */
  lemma NeighborMirrored(g: seq<GridCell>, c: GridCell, e: Edge, flip: FlipEdge, rows: int, cols: int)
    ensures NeighborIndex(Mirror(g, flip, rows, cols), MirrorCell(c, flip, rows, cols), MirrorEdge(flip, e), rows, cols)
            == NeighborIndex(g, c, e, rows, cols)
  {
    var p := NeighborPosition(c.row, c.col, e);
    var m := MirrorCell(c, flip, rows, cols);
    assert NeighborPosition(m.row, m.col, MirrorEdge(flip, e)) == MirrorPos(flip, rows, cols, p.0, p.1);
    FindFromMirrored(g, flip, rows, cols, p.0, p.1, 0);
  }

  lemma InteriorMirrored(g: seq<GridCell>, c: GridCell, e: Edge, flip: FlipEdge, rows: int, cols: int, gap: real)
    ensures EdgeInterior(Mirror(g, flip, rows, cols), MirrorCell(c, flip, rows, cols), MirrorEdge(flip, e), rows, cols, gap)
            == EdgeInterior(g, c, e, rows, cols, gap)
  {
    NeighborMirrored(g, c, e, flip, rows, cols);
  }

  // ---------------------------------------------------------------- the back side

  /** The back grid: the mirrored front, through the bleed pass and then the
      positioning pass. */
  function DuplexBack(front: seq<GridCell>, layout: ImpositionLayout, config: ImpositionConfig,
                      trimW: real, trimH: real): seq<GridCell>
  {
    var mirrored := Mirror(front, config.flipEdge, layout.rows, layout.cols);
    var bled := PerCellBleed(mirrored, layout.rows, layout.cols, config.bleed, config.gapBetweenItems);
    CellPositions(bled, config.sheet, layout.rows, layout.cols, config.bleed, config.gapBetweenItems, trimW, trimH)
  }

  /** `create_duplex_back`: copies the front cells, mirrors the copies and runs the
      bleed and positioning passes on them; the front grid is left alone. */
  method CreateDuplexBack(frontGrid: array<GridCell>, layout: ImpositionLayout, config: ImpositionConfig,
                          trimW: real, trimH: real) returns (backGrid: array<GridCell>)
    ensures fresh(backGrid)
    ensures backGrid[..] == DuplexBack(frontGrid[..], layout, config, trimW, trimH)
  {
    backGrid := new GridCell[frontGrid.Length](i requires 0 <= i < frontGrid.Length reads frontGrid => frontGrid[i]);
    ghost var front := frontGrid[..];
    if config.flipEdge == Long {
      for i := 0 to backGrid.Length
        invariant forall j :: 0 <= j < i ==> backGrid[j] == MirrorCell(front[j], Long, layout.rows, layout.cols)
        invariant forall j :: i <= j < backGrid.Length ==> backGrid[j] == front[j]
      {
        backGrid[i] := backGrid[i].(col := (layout.cols - 1) - backGrid[i].col);
      }
    } else if config.flipEdge == Short {
      for i := 0 to backGrid.Length
        invariant forall j :: 0 <= j < i ==> backGrid[j] == MirrorCell(front[j], Short, layout.rows, layout.cols)
        invariant forall j :: i <= j < backGrid.Length ==> backGrid[j] == front[j]
      {
        backGrid[i] := backGrid[i].(row := (layout.rows - 1) - backGrid[i].row,
                                    rotation := (backGrid[i].rotation + 180) % 360);
      }
    }
    assert backGrid[..] == Mirror(front, config.flipEdge, layout.rows, layout.cols);
    CalculatePerCellBleed(backGrid, layout.rows, layout.cols, config.bleed, config.gapBetweenItems);
    CalculateCellPositions(backGrid, layout.rows, layout.cols, config.sheet, config.bleed,
                           config.gapBetweenItems, trimW, trimH);
  }

  /** The back has as many cells as the front, and each shows the page of the front
      cell it was copied from. */
  lemma DuplexBackKeepsPages(front: seq<GridCell>, layout: ImpositionLayout, config: ImpositionConfig,
                             trimW: real, trimH: real)
    ensures var back := DuplexBack(front, layout, config, trimW, trimH);
      |back| == |front| && forall i :: 0 <= i < |front| ==> back[i].pageIndex == front[i].pageIndex
  {
    var mirrored := Mirror(front, config.flipEdge, layout.rows, layout.cols);
    var bled := PerCellBleed(mirrored, layout.rows, layout.cols, config.bleed, config.gapBetweenItems);
    assert SameSlots(bled, mirrored);
  }

  /** A filled back cell's edge is interior exactly when the front cell it came from
      has the mirrored edge interior: left and right trade places under a long-edge
      flip, top and bottom under a short-edge flip. */
  lemma DuplexBackMirrorsInteriorEdges(front: seq<GridCell>, layout: ImpositionLayout, config: ImpositionConfig,
                                       trimW: real, trimH: real, i: nat, e: Edge)
    requires i < |front| && front[i].pageIndex.Some?
    ensures var back := DuplexBack(front, layout, config, trimW, trimH);
            var frontBled := PerCellBleed(front, layout.rows, layout.cols, config.bleed, config.gapBetweenItems);
            i < |back| && back[i].isInteriorEdge.Get(MirrorEdge(config.flipEdge, e)) == frontBled[i].isInteriorEdge.Get(e)
  {
    var flip := config.flipEdge;
    var mirrored := Mirror(front, flip, layout.rows, layout.cols);
    var bled := PerCellBleed(mirrored, layout.rows, layout.cols, config.bleed, config.gapBetweenItems);
    InteriorMirrored(front, front[i], e, flip, layout.rows, layout.cols, config.gapBetweenItems);
    assert bled[i].isInteriorEdge.Get(MirrorEdge(flip, e))
        == EdgeInterior(mirrored, mirrored[i], MirrorEdge(flip, e), layout.rows, layout.cols, config.gapBetweenItems);
  }

  // ---------------------------------------------------------------- back pages

  /** Cell `i` comes before cell `j` in Python's stable sort by `(row, col)`. */
  predicate SortsBefore(g: seq<GridCell>, i: nat, j: nat)
    requires i < |g| && j < |g|
  {
    g[i].row < g[j].row || (g[i].row == g[j].row && g[i].col < g[j].col) ||
    (g[i].row == g[j].row && g[i].col == g[j].col && i < j)
  }

  /** An ordering of some cell indices that is strictly increasing in the sort. */
  predicate SortedIndices(g: seq<GridCell>, order: seq<nat>)
  {
    (forall k :: 0 <= k < |order| ==> order[k] < |g|) &&
    (forall a, b :: 0 <= a < b < |order| ==> order[a] < |g| && order[b] < |g| && SortsBefore(g, order[a], order[b]))
  }

  /** Inserts cell `i` into a sorted ordering. */
  function InsertSorted(g: seq<GridCell>, order: seq<nat>, i: nat): (r: seq<nat>)
    requires i < |g| && SortedIndices(g, order) && i !in order
    ensures |r| == |order| + 1
    ensures forall x :: x in r <==> x in order || x == i
    ensures SortedIndices(g, r)
  {
    if |order| == 0 then [i]
    else if SortsBefore(g, i, order[0]) then [i] + order
    else
      var rest := InsertSorted(g, order[1..], i);
      assert SortsBefore(g, order[0], i);
      assert forall b :: 0 <= b < |rest| ==> rest[b] in order[1..] || rest[b] == i;
      assert forall c :: 1 <= c < |order| ==> SortsBefore(g, order[0], order[c]);
      assert forall x :: x in order[1..] ==> exists c :: 1 <= c < |order| && order[c] == x;
      [order[0]] + rest
  }

  /** Python's `sorted(grid[..n], key=(row, col))`, as the indices of the cells in
      sorted order: every index below `n` once, strictly increasing in the sort. */
  function PositionOrder(g: seq<GridCell>, n: nat): (order: seq<nat>)
    requires n <= |g|
    ensures |order| == n
    ensures forall x :: x in order ==> x < n
    ensures forall x: nat :: x < n ==> x in order
    ensures SortedIndices(g, order)
  {
    if n == 0 then [] else InsertSorted(g, PositionOrder(g, n - 1), n - 1)
  }

  /** The position of `x` in `s`. */
  function IndexOf(s: seq<nat>, x: nat): (k: nat)
    requires x in s
    ensures k < |s| && s[k] == x
    ensures forall j :: 0 <= j < k ==> s[j] != x
  {
    if s[0] == x then 0 else 1 + IndexOf(s[1..], x)
  }

  /** Where cell `i` stands in the sort by position. */
  function Rank(g: seq<GridCell>, i: nat): nat
    requires i < |g|
  {
    IndexOf(PositionOrder(g, |g|), i)
  }

  /** The back grid after `assign_back_pages`: the cell of rank `k` shows page
      `cursor + k` while pages remain and nothing after. */
  function BackPages(g: seq<GridCell>, cursor: nat, pageCount: nat): (r: seq<GridCell>)
    ensures |r| == |g|
    ensures forall i :: 0 <= i < |g| ==> r[i] == g[i].(pageIndex := SequentialPage(cursor, Rank(g, i), pageCount))
  {
    seq(|g|, i requires 0 <= i < |g| => g[i].(pageIndex := SequentialPage(cursor, Rank(g, i), pageCount)))
  }

  /** `assign_back_pages`: walks the cells in `(row, col)` order, giving each the
      next page while the cursor is below the page count and no page after;
      returns the advanced cursor. */
  method AssignBackPages(backGrid: array<GridCell>, pageCursor: nat, pageCount: nat) returns (cursor: nat)
    modifies backGrid
    ensures backGrid[..] == BackPages(old(backGrid[..]), pageCursor, pageCount)
    ensures cursor == CursorAfter(pageCursor, backGrid.Length, pageCount)
  {
    ghost var g0 := backGrid[..];
    var order := PositionOrder(backGrid[..], backGrid.Length);
    cursor := pageCursor;
    for k := 0 to |order|
      invariant cursor == CursorAfter(pageCursor, k, pageCount)
      invariant forall m :: 0 <= m < k ==>
                  backGrid[order[m]] == g0[order[m]].(pageIndex := SequentialPage(pageCursor, m, pageCount))
      invariant forall m :: k <= m < |order| ==> backGrid[order[m]] == g0[order[m]]
    {
      var i := order[k];
      if cursor < pageCount {
        backGrid[i] := backGrid[i].(pageIndex := Some(cursor));
        cursor := cursor + 1;
      } else {
        backGrid[i] := backGrid[i].(pageIndex := None);
      }
    }
    forall i | 0 <= i < backGrid.Length
      ensures backGrid[i] == g0[i].(pageIndex := SequentialPage(pageCursor, Rank(g0, i), pageCount))
    {
      var m := IndexOf(order, i);
      assert order[m] == i;
    }
  }

  /** Pages go out in position order: a cell sorted before a filled cell is filled
      too, with a smaller page. */
  lemma BackPagesFollowPositions(g: seq<GridCell>, cursor: nat, pageCount: nat, i: nat, j: nat)
    requires i < |g| && j < |g| && SortsBefore(g, i, j)
    requires BackPages(g, cursor, pageCount)[j].pageIndex.Some?
    ensures var r := BackPages(g, cursor, pageCount);
            r[i].pageIndex.Some? && r[i].pageIndex.value < r[j].pageIndex.value
  {
    var order := PositionOrder(g, |g|);
    var ri, rj := Rank(g, i), Rank(g, j);
    assert order[ri] == i && order[rj] == j;
    assert !(rj < ri);
    assert ri != rj;
    assert SequentialPage(cursor, rj, pageCount).Some?;
  }

  /** A sorted ordering lists no index twice. */
  lemma SortedIndicesDistinct(g: seq<GridCell>, order: seq<nat>)
    requires SortedIndices(g, order)
    ensures forall a, b :: 0 <= a < |order| && 0 <= b < |order| && a != b ==> order[a] != order[b]
  {
  }

  /** The cell at position `k` of the order has rank `k`. */
  lemma RankOfOrder(g: seq<GridCell>, k: nat)
    requires k < |g|
    ensures PositionOrder(g, |g|)[k] < |g| && Rank(g, PositionOrder(g, |g|)[k]) == k
  {
    var order := PositionOrder(g, |g|);
    SortedIndicesDistinct(g, order);
    assert order[Rank(g, order[k])] == order[k];
  }

  /** Every page from the cursor up to the page count, as far as there are cells,
      lands on exactly one cell of the back. */
  lemma BackPagesPlaceEachPageOnce(g: seq<GridCell>, cursor: nat, pageCount: nat, p: nat)
    requires cursor <= p < pageCount && p < cursor + |g|
    ensures var r := BackPages(g, cursor, pageCount);
            var i := PositionOrder(g, |g|)[p - cursor];
            i < |g| && r[i].pageIndex == Some(p) &&
            forall j :: 0 <= j < |g| && r[j].pageIndex == Some(p) ==> j == i
  {
    var order := PositionOrder(g, |g|);
    var i := order[p - cursor];
    RankOfOrder(g, p - cursor);
    forall j | 0 <= j < |g| && BackPages(g, cursor, pageCount)[j].pageIndex == Some(p)
      ensures j == i
    {
      BackPageHasRank(g, cursor, pageCount, p, j);
    }
  }

  /** The cell showing page `p` on the back is the one ranked `p - cursor`. */
  lemma BackPageHasRank(g: seq<GridCell>, cursor: nat, pageCount: nat, p: nat, j: nat)
    requires j < |g| && BackPages(g, cursor, pageCount)[j].pageIndex == Some(p)
    ensures p >= cursor && p - cursor < |g| && PositionOrder(g, |g|)[p - cursor] == j
  {
    var k := Rank(g, j);
    assert SequentialPage(cursor, k, pageCount) == Some(p);
    assert p == cursor + k;
  }

  /** The cursor never passes the page count it started below, and cells beyond the
      last page are left empty. */
  lemma BackPagesLeftoverEmpty(g: seq<GridCell>, cursor: nat, pageCount: nat, i: nat)
    requires i < |g| && cursor + Rank(g, i) >= pageCount
    ensures BackPages(g, cursor, pageCount)[i].pageIndex.None?
    ensures cursor <= pageCount ==> CursorAfter(cursor, |g|, pageCount) <= pageCount
  {
  }
}
