/** Printer's marks for one sheet side: crop marks at the exterior trim corners of
    the placed cells, registration targets, a color bar, fold marks and a slug line. */
module MarkPlacer {
  import opened Wrappers
  import opened Numeric
  import opened Models
  import opened Utils

  // ---------------------------------------------------------------- crop marks

  /** The corners of a trim rectangle, in the order the placer visits them. */
  datatype Corner = BottomLeft | BottomRight | TopLeft | TopRight
  {
    predicate IsLeft() { this == BottomLeft || this == TopLeft }
    predicate IsRight() { this == BottomRight || this == TopRight }
    predicate IsBottom() { this == BottomLeft || this == BottomRight }
    predicate IsTop() { this == TopLeft || this == TopRight }
  }

  const Corners: seq<Corner> := [BottomLeft, BottomRight, TopLeft, TopRight]

  /** The corner point of a trim rectangle with origin `(tx, ty)`. */
  function CornerPoint(k: Corner, tx: real, ty: real, trimW: real, trimH: real): (real, real)
  {
    match k
    case BottomLeft => (tx, ty)
    case BottomRight => (tx + trimW, ty)
    case TopLeft => (tx, ty + trimH)
    case TopRight => (tx + trimW, ty + trimH)
  }

  /** A crop mark the placer considers: the one leaving corner `(cx, cy)` of cell
      `cellIdx` beyond edge `edge`; `exterior` says that edge does not touch a
      filled neighbour. */
  datatype Candidate = Candidate(cellIdx: nat, edge: Edge, cx: real, cy: real, exterior: bool)

  /** The horizontal mark of a corner (left or right) comes before its vertical one
      (bottom or top). */
  function CornerCandidates(cell: GridCell, idx: nat, k: Corner, trimW: real, trimH: real): seq<Candidate>
  {
    var p := CornerPoint(k, cell.trimOriginX, cell.trimOriginY, trimW, trimH);
    var h := if k.IsLeft() then Left else Right;
    var v := if k.IsBottom() then Bottom else Top;
    [Candidate(idx, h, p.0, p.1, !cell.isInteriorEdge.Get(h)),
     Candidate(idx, v, p.0, p.1, !cell.isInteriorEdge.Get(v))]
  }

  /** The candidates of the first `k` corners of a cell. */
  function CellCandidatesUpTo(cell: GridCell, idx: nat, trimW: real, trimH: real, k: nat): seq<Candidate>
    requires k <= |Corners|
  {
    if k == 0 then []
    else CellCandidatesUpTo(cell, idx, trimW, trimH, k - 1) + CornerCandidates(cell, idx, Corners[k - 1], trimW, trimH)
  }

  /** All candidates of the first `n` cells; cells without a page have none. */
  function Candidates(grid: seq<GridCell>, n: nat, trimW: real, trimH: real): (cs: seq<Candidate>)
    requires n <= |grid|
  {
    if n == 0 then []
    else if grid[n - 1].pageIndex.None? then Candidates(grid, n - 1, trimW, trimH)
    else Candidates(grid, n - 1, trimW, trimH) + CellCandidatesUpTo(grid[n - 1], n - 1, trimW, trimH, |Corners|)
  }

  /** Candidates all of cell `idx`, exterior exactly where its edges are not flagged interior. */
  predicate OwnCandidates(cell: GridCell, idx: nat, cs: seq<Candidate>)
  {
    forall j :: 0 <= j < |cs| ==> cs[j].cellIdx == idx && cs[j].exterior == !cell.isInteriorEdge.Get(cs[j].edge)
  }

  /** Candidates all of filled cells among the first `n`, exterior exactly where
      the cell's edge is not flagged interior. */
  predicate WellFormedCandidates(grid: seq<GridCell>, n: nat, cs: seq<Candidate>)
    requires n <= |grid|
  {
    forall j :: 0 <= j < |cs| ==>
      cs[j].cellIdx < n && grid[cs[j].cellIdx].pageIndex.Some? &&
      cs[j].exterior == !grid[cs[j].cellIdx].isInteriorEdge.Get(cs[j].edge)
  }

  lemma {:induction false} CandidatesOfCell(cell: GridCell, idx: nat, trimW: real, trimH: real, k: nat)
    requires k <= |Corners|
    ensures |CellCandidatesUpTo(cell, idx, trimW, trimH, k)| == 2 * k
    ensures OwnCandidates(cell, idx, CellCandidatesUpTo(cell, idx, trimW, trimH, k))
  {
    if k > 0 {
      CandidatesOfCell(cell, idx, trimW, trimH, k - 1);
      var prev := CellCandidatesUpTo(cell, idx, trimW, trimH, k - 1);
      var cc := CornerCandidates(cell, idx, Corners[k - 1], trimW, trimH);
      var cs := prev + cc;
      forall j | 0 <= j < |cs|
        ensures cs[j].cellIdx == idx && cs[j].exterior == !cell.isInteriorEdge.Get(cs[j].edge)
      {
        if j < |prev| {
          assert cs[j] == prev[j];
        } else {
          assert cs[j] == cc[j - |prev|];
        }
      }
    }
  }

  /** Every candidate belongs to a filled cell, and is exterior exactly when its
      cell's edge is not flagged interior. */
  lemma {:induction false} CandidatesWellFormed(grid: seq<GridCell>, n: nat, trimW: real, trimH: real)
    requires n <= |grid|
    ensures WellFormedCandidates(grid, n, Candidates(grid, n, trimW, trimH))
  {
    if n > 0 {
      CandidatesWellFormed(grid, n - 1, trimW, trimH);
      var prev := Candidates(grid, n - 1, trimW, trimH);
      if grid[n - 1].pageIndex.Some? {
        var own := CellCandidatesUpTo(grid[n - 1], n - 1, trimW, trimH, |Corners|);
        CandidatesOfCell(grid[n - 1], n - 1, trimW, trimH, |Corners|);
        var cs := prev + own;
        forall j | 0 <= j < |cs|
          ensures cs[j].cellIdx < n && grid[cs[j].cellIdx].pageIndex.Some? &&
                  cs[j].exterior == !grid[cs[j].cellIdx].isInteriorEdge.Get(cs[j].edge)
        {
          if j < |prev| {
            assert cs[j] == prev[j];
          } else {
            assert cs[j] == own[j - |prev|];
          }
        }
      }
    }
  }

  /** The trim rectangles of the filled cells among the first `n`, in grid order. */
  function TrimRects(grid: seq<GridCell>, n: nat, trimW: real, trimH: real): (rs: seq<Rectangle>)
    requires n <= |grid|
    ensures |rs| <= n
  {
    if n == 0 then []
    else if grid[n - 1].pageIndex.None? then TrimRects(grid, n - 1, trimW, trimH)
    else TrimRects(grid, n - 1, trimW, trimH) + [Rectangle(grid[n - 1].trimOriginX, grid[n - 1].trimOriginY, trimW, trimH)]
  }

  /** The crop mark for a candidate: `offset` away from the corner and `length` long,
      pointing away from the trim. */
  function CropMarkFor(c: Candidate, mc: MarkConfig): MarkObject
  {
    var off, len := mc.cropMarkOffset, mc.cropMarkLength;
    var props := CropProps(mc.cropMarkStrokeWeight, mc.cropMarkColor);
    match c.edge
    case Left => MarkObject(c.cx - off, c.cy, c.cx - off - len, c.cy, props)
    case Right => MarkObject(c.cx + off, c.cy, c.cx + off + len, c.cy, props)
    case Bottom => MarkObject(c.cx, c.cy - off, c.cx, c.cy - off - len, props)
    case Top => MarkObject(c.cx, c.cy + off, c.cx, c.cy + off + len, props)
  }

  type MarkKey = (real, real, real, real)

  /** The de-duplication key of a mark: its end points, each rounded by `round2`
      (Python's `round(v, 2)`). */
  function KeyOf(m: MarkObject, round2: real -> real): MarkKey
  {
    (round2(m.x1), round2(m.y1), round2(m.x2), round2(m.y2))
  }

  function KeysOf(marks: seq<MarkObject>, round2: real -> real): set<MarkKey>
  {
    if |marks| == 0 then {} else KeysOf(marks[..|marks| - 1], round2) + {KeyOf(marks[|marks| - 1], round2)}
  }

  /** The marks placed so far and the keys already used. */
  datatype CropState = CropState(marks: seq<MarkObject>, seen: set<MarkKey>)

  /** One candidate considered: placed when its edge is exterior, its key is new and
      it meets no trim rectangle other than `rects[cellIdx]`. */
  function Step(st: CropState, c: Candidate, rects: seq<Rectangle>, mc: MarkConfig, round2: real -> real): CropState
  {
    if !c.exterior then st
    else
      var m := CropMarkFor(c, mc);
      var key := KeyOf(m, round2);
      if key in st.seen then st
      else if LineOverlapsAnyRect(m.x1, m.y1, m.x2, m.y2, rects, c.cellIdx) then st
      else CropState(st.marks + [m], st.seen + {key})
  }

  /** The state after considering the candidates in order. */
  function CropRun(cs: seq<Candidate>, rects: seq<Rectangle>, mc: MarkConfig, round2: real -> real): CropState
  {
    if |cs| == 0 then CropState([], {})
    else Step(CropRun(cs[..|cs| - 1], rects, mc, round2), cs[|cs| - 1], rects, mc, round2)
  }

  lemma CropRunSnoc(cs: seq<Candidate>, c: Candidate, rects: seq<Rectangle>, mc: MarkConfig, round2: real -> real)
    ensures CropRun(cs + [c], rects, mc, round2) == Step(CropRun(cs, rects, mc, round2), c, rects, mc, round2)
  {
    assert (cs + [c])[..|cs|] == cs;
  }

  /** The crop marks of a grid. */
  function CropMarks(grid: seq<GridCell>, mc: MarkConfig, trimW: real, trimH: real, round2: real -> real): seq<MarkObject>
  {
    CropRun(Candidates(grid, |grid|, trimW, trimH), TrimRects(grid, |grid|, trimW, trimH), mc, round2).marks
  }

  /** One of the four `if` blocks of `place_crop_marks`, for an exterior edge. */
  method TryCropMark(marks: seq<MarkObject>, seen: set<MarkKey>, edge: Edge, cx: real, cy: real, cellIdx: nat,
                     rects: seq<Rectangle>, mc: MarkConfig, round2: real -> real)
    returns (marks': seq<MarkObject>, seen': set<MarkKey>)
    ensures CropState(marks', seen') == Step(CropState(marks, seen), Candidate(cellIdx, edge, cx, cy, true), rects, mc, round2)
  {
    var length, offset := mc.cropMarkLength, mc.cropMarkOffset;
    var x1, y1, x2, y2;
    match edge {
      case Left => x1, y1, x2, y2 := cx - offset, cy, cx - offset - length, cy;
      case Right => x1, y1, x2, y2 := cx + offset, cy, cx + offset + length, cy;
      case Bottom => x1, y1, x2, y2 := cx, cy - offset, cx, cy - offset - length;
      case Top => x1, y1, x2, y2 := cx, cy + offset, cx, cy + offset + length;
    }
    var key := (round2(x1), round2(y1), round2(x2), round2(y2));
    marks', seen' := marks, seen;
    if key !in seen {
      if !LineOverlapsAnyRect(x1, y1, x2, y2, rects, cellIdx) {
        marks' := marks + [MarkObject(x1, y1, x2, y2, CropProps(mc.cropMarkStrokeWeight, mc.cropMarkColor))];
        seen' := seen + {key};
      }
    }
  }

  /** The body of the corner loop of `place_crop_marks`: the horizontal mark at a
      corner, then the vertical one, each only on an exterior edge. */
  method CornerCropMarks(marks: seq<MarkObject>, seen: set<MarkKey>, cell: GridCell, cellIdx: nat, corner: Corner,
                         allTrimRects: seq<Rectangle>, mc: MarkConfig, trimW: real, trimH: real, round2: real -> real)
    returns (marks': seq<MarkObject>, seen': set<MarkKey>)
    ensures var cc := CornerCandidates(cell, cellIdx, corner, trimW, trimH);
            CropState(marks', seen') ==
            Step(Step(CropState(marks, seen), cc[0], allTrimRects, mc, round2), cc[1], allTrimRects, mc, round2)
  {
    var p := CornerPoint(corner, cell.trimOriginX, cell.trimOriginY, trimW, trimH);
    var cx, cy := p.0, p.1;
    ghost var cc := CornerCandidates(cell, cellIdx, corner, trimW, trimH);
    marks', seen' := marks, seen;
    if corner.IsLeft() && !cell.isInteriorEdge.left {
      marks', seen' := TryCropMark(marks', seen', Left, cx, cy, cellIdx, allTrimRects, mc, round2);
    }
    if corner.IsRight() && !cell.isInteriorEdge.right {
      marks', seen' := TryCropMark(marks', seen', Right, cx, cy, cellIdx, allTrimRects, mc, round2);
    }
    assert CropState(marks', seen') == Step(CropState(marks, seen), cc[0], allTrimRects, mc, round2);
    ghost var afterH := CropState(marks', seen');
    if corner.IsBottom() && !cell.isInteriorEdge.bottom {
      marks', seen' := TryCropMark(marks', seen', Bottom, cx, cy, cellIdx, allTrimRects, mc, round2);
    }
    if corner.IsTop() && !cell.isInteriorEdge.top {
      marks', seen' := TryCropMark(marks', seen', Top, cx, cy, cellIdx, allTrimRects, mc, round2);
    }
    assert CropState(marks', seen') == Step(afterH, cc[1], allTrimRects, mc, round2);
  }

  /** `place_crop_marks`: collects the trim rectangles of the filled cells, then
      walks the filled cells, their corners and the two edges at each corner. */
  method PlaceCropMarks(grid: seq<GridCell>, layout: ImpositionLayout, mc: MarkConfig, trimW: real, trimH: real,
                        round2: real -> real) returns (marks: seq<MarkObject>)
    ensures marks == CropMarks(grid, mc, trimW, trimH, round2)
  {
    var allTrimRects: seq<Rectangle> := [];
    for i := 0 to |grid|
      invariant allTrimRects == TrimRects(grid, i, trimW, trimH)
    {
      if grid[i].pageIndex.Some? {
        allTrimRects := allTrimRects + [Rectangle(grid[i].trimOriginX, grid[i].trimOriginY, trimW, trimH)];
      }
    }
    marks := [];
    var seen: set<MarkKey> := {};
    for cellIdx := 0 to |grid|
      invariant CropState(marks, seen) == CropRun(Candidates(grid, cellIdx, trimW, trimH), allTrimRects, mc, round2)
    {
      var cell := grid[cellIdx];
      if cell.pageIndex.None? {
        continue;
      }
      ghost var before := Candidates(grid, cellIdx, trimW, trimH);
      marks, seen := CellCropMarks(marks, seen, cell, cellIdx, allTrimRects, mc, trimW, trimH, round2, before);
      assert Candidates(grid, cellIdx + 1, trimW, trimH) == before + CellCandidatesUpTo(cell, cellIdx, trimW, trimH, |Corners|);
    }
  }

  /** The corner loop of `place_crop_marks` for one filled cell: tries the two
      marks of each corner in turn against the marks made so far. */
  method CellCropMarks(marks0: seq<MarkObject>, seen0: set<MarkKey>, cell: GridCell, cellIdx: nat,
                       allTrimRects: seq<Rectangle>, mc: MarkConfig, trimW: real, trimH: real,
                       round2: real -> real, ghost before: seq<Candidate>)
    returns (marks: seq<MarkObject>, seen: set<MarkKey>)
    requires CropState(marks0, seen0) == CropRun(before, allTrimRects, mc, round2)
    ensures CropState(marks, seen) ==
            CropRun(before + CellCandidatesUpTo(cell, cellIdx, trimW, trimH, |Corners|), allTrimRects, mc, round2)
  {
    marks, seen := marks0, seen0;
    assert before + CellCandidatesUpTo(cell, cellIdx, trimW, trimH, 0) == before;
    for k := 0 to |Corners|
      invariant CropState(marks, seen) ==
                CropRun(before + CellCandidatesUpTo(cell, cellIdx, trimW, trimH, k), allTrimRects, mc, round2)
    {
      var corner := Corners[k];
      ghost var prefix := before + CellCandidatesUpTo(cell, cellIdx, trimW, trimH, k);
      ghost var cc := CornerCandidates(cell, cellIdx, corner, trimW, trimH);
      marks, seen := CornerCropMarks(marks, seen, cell, cellIdx, corner, allTrimRects, mc, trimW, trimH, round2);
      CropRunSnoc(prefix, cc[0], allTrimRects, mc, round2);
      CropRunSnoc(prefix + [cc[0]], cc[1], allTrimRects, mc, round2);
      assert prefix + [cc[0]] + [cc[1]] == before + CellCandidatesUpTo(cell, cellIdx, trimW, trimH, k + 1);
    }
  }

  // ---------------------------------------------------------------- crop-mark properties

  lemma KeysOfMembers(marks: seq<MarkObject>, round2: real -> real, k: MarkKey)
    ensures k in KeysOf(marks, round2) <==> exists i :: 0 <= i < |marks| && KeyOf(marks[i], round2) == k
  {
    if |marks| > 0 {
      var init := marks[..|marks| - 1];
      KeysOfMembers(init, round2, k);
      if k in KeysOf(init, round2) {
        var i :| 0 <= i < |init| && KeyOf(init[i], round2) == k;
        assert marks[i] == init[i];
      }
      if exists i :: 0 <= i < |marks| && KeyOf(marks[i], round2) == k {
        var i :| 0 <= i < |marks| && KeyOf(marks[i], round2) == k;
        if i < |init| {
          assert init[i] == marks[i];
        }
      }
    }
  }

  /** A step either leaves the state alone or appends the candidate's mark and
      records its key, which was new, for a mark clear of the other trims. */
  lemma StepCases(st: CropState, c: Candidate, rects: seq<Rectangle>, mc: MarkConfig, round2: real -> real)
    ensures var st' := Step(st, c, rects, mc, round2);
            var m := CropMarkFor(c, mc);
            st' == st ||
            (c.exterior && KeyOf(m, round2) !in st.seen &&
             !LineOverlapsAnyRect(m.x1, m.y1, m.x2, m.y2, rects, c.cellIdx) &&
             st' == CropState(st.marks + [m], st.seen + {KeyOf(m, round2)}))
  {
  }

  /** The keys seen are exactly the keys of the marks placed. */
  lemma {:induction false} CropRunSeen(cs: seq<Candidate>, rects: seq<Rectangle>, mc: MarkConfig, round2: real -> real)
    ensures CropRun(cs, rects, mc, round2).seen == KeysOf(CropRun(cs, rects, mc, round2).marks, round2)
  {
    if |cs| > 0 {
      var init := cs[..|cs| - 1];
      CropRunSeen(init, rects, mc, round2);
      var st := CropRun(init, rects, mc, round2);
      var st' := Step(st, cs[|cs| - 1], rects, mc, round2);
      StepCases(st, cs[|cs| - 1], rects, mc, round2);
      if st' != st {
        assert st'.marks[..|st'.marks| - 1] == st.marks;
      }
    }
  }

  predicate KeysDistinct(marks: seq<MarkObject>, round2: real -> real)
  {
    forall a, b :: 0 <= a < b < |marks| ==> KeyOf(marks[a], round2) != KeyOf(marks[b], round2)
  }

  /** No two placed marks share a key. */
  lemma {:induction false} CropRunDistinct(cs: seq<Candidate>, rects: seq<Rectangle>, mc: MarkConfig, round2: real -> real)
    ensures KeysDistinct(CropRun(cs, rects, mc, round2).marks, round2)
  {
    if |cs| > 0 {
      var init := cs[..|cs| - 1];
      CropRunDistinct(init, rects, mc, round2);
      CropRunSeen(init, rects, mc, round2);
      var st := CropRun(init, rects, mc, round2);
      var st' := Step(st, cs[|cs| - 1], rects, mc, round2);
      StepCases(st, cs[|cs| - 1], rects, mc, round2);
      if st' != st {
        var m := CropMarkFor(cs[|cs| - 1], mc);
        forall a, b | 0 <= a < b < |st'.marks|
          ensures KeyOf(st'.marks[a], round2) != KeyOf(st'.marks[b], round2)
        {
          assert st'.marks[a] == st.marks[a];
          if b == |st.marks| {
            KeysOfMembers(st.marks, round2, KeyOf(st.marks[a], round2));
          } else {
            assert st'.marks[b] == st.marks[b];
          }
        }
      }
    }
  }

  /** A mark with `y1 = y2` or `x1 = x2`, running `length` from its first end point,
      drawn with the configured stroke and color. */
  predicate IsCropMark(m: MarkObject, mc: MarkConfig)
  {
    m.props == CropProps(mc.cropMarkStrokeWeight, mc.cropMarkColor) &&
    ((m.y1 == m.y2 && (m.x2 - m.x1 == mc.cropMarkLength || m.x1 - m.x2 == mc.cropMarkLength)) ||
     (m.x1 == m.x2 && (m.y2 - m.y1 == mc.cropMarkLength || m.y1 - m.y2 == mc.cropMarkLength)))
  }

  predicate AllCropMarks(marks: seq<MarkObject>, mc: MarkConfig)
  {
    forall i :: 0 <= i < |marks| ==> IsCropMark(marks[i], mc)
  }

  lemma {:induction false} CropRunShapes(cs: seq<Candidate>, rects: seq<Rectangle>, mc: MarkConfig, round2: real -> real)
    ensures AllCropMarks(CropRun(cs, rects, mc, round2).marks, mc)
  {
    if |cs| > 0 {
      var init := cs[..|cs| - 1];
      CropRunShapes(init, rects, mc, round2);
      var st := CropRun(init, rects, mc, round2);
      StepCases(st, cs[|cs| - 1], rects, mc, round2);
      assert IsCropMark(CropMarkFor(cs[|cs| - 1], mc), mc);
    }
  }

  /** Mark `m` is the crop mark of candidate `c`, placed clear of the other trims. */
  predicate PlacedFrom(m: MarkObject, c: Candidate, rects: seq<Rectangle>, mc: MarkConfig)
  {
    c.exterior && m == CropMarkFor(c, mc) && !LineOverlapsAnyRect(m.x1, m.y1, m.x2, m.y2, rects, c.cellIdx)
  }

  /** Every mark is placed from one of the candidates. */
  predicate AllPlaced(marks: seq<MarkObject>, cs: seq<Candidate>, rects: seq<Rectangle>, mc: MarkConfig)
  {
    forall i :: 0 <= i < |marks| ==> exists j :: 0 <= j < |cs| && PlacedFrom(marks[i], cs[j], rects, mc)
  }

  lemma {:induction false} CropRunProvenance(cs: seq<Candidate>, rects: seq<Rectangle>, mc: MarkConfig, round2: real -> real)
    ensures AllPlaced(CropRun(cs, rects, mc, round2).marks, cs, rects, mc)
  {
    if |cs| > 0 {
      var init := cs[..|cs| - 1];
      CropRunProvenance(init, rects, mc, round2);
      var st := CropRun(init, rects, mc, round2);
      var st' := Step(st, cs[|cs| - 1], rects, mc, round2);
      StepCases(st, cs[|cs| - 1], rects, mc, round2);
      forall i | 0 <= i < |st'.marks|
        ensures exists j :: 0 <= j < |cs| && PlacedFrom(st'.marks[i], cs[j], rects, mc)
      {
        if i < |st.marks| {
          assert st'.marks[i] == st.marks[i];
          var j :| 0 <= j < |init| && PlacedFrom(st.marks[i], init[j], rects, mc);
          assert cs[j] == init[j];
        } else {
          assert PlacedFrom(st'.marks[i], cs[|cs| - 1], rects, mc);
        }
      }
    }
  }

  /** Mark `m` leaves corner `k` of filled cell `idx` beyond its exterior edge `e`,
      and meets no trim rectangle but the one at index `idx`. */
  predicate FromCorner(m: MarkObject, grid: seq<GridCell>, mc: MarkConfig, trimW: real, trimH: real,
                       idx: nat, e: Edge, k: Corner)
  {
    idx < |grid| && grid[idx].pageIndex.Some? && !grid[idx].isInteriorEdge.Get(e) &&
    var p := CornerPoint(k, grid[idx].trimOriginX, grid[idx].trimOriginY, trimW, trimH);
    m == CropMarkFor(Candidate(idx, e, p.0, p.1, true), mc) &&
    !LineOverlapsAnyRect(m.x1, m.y1, m.x2, m.y2, TrimRects(grid, |grid|, trimW, trimH), idx)
  }

  ghost predicate FromExteriorEdge(m: MarkObject, grid: seq<GridCell>, mc: MarkConfig, trimW: real, trimH: real)
  {
    exists idx: nat, e: Edge, k: Corner :: FromCorner(m, grid, mc, trimW, trimH, idx, e, k)
  }

  /** Crop marks are axis-aligned and `crop_mark_length` long; no two of them share
      a rounded key; and each one belongs to an exterior edge of a filled cell and
      meets no trim rectangle other than the one its cell index excludes. */
  lemma CropMarksProperties(grid: seq<GridCell>, mc: MarkConfig, trimW: real, trimH: real, round2: real -> real)
    ensures AllCropMarks(CropMarks(grid, mc, trimW, trimH, round2), mc)
    ensures KeysDistinct(CropMarks(grid, mc, trimW, trimH, round2), round2)
    ensures forall i :: 0 <= i < |CropMarks(grid, mc, trimW, trimH, round2)| ==>
              FromExteriorEdge(CropMarks(grid, mc, trimW, trimH, round2)[i], grid, mc, trimW, trimH)
  {
    var cs := Candidates(grid, |grid|, trimW, trimH);
    var rects := TrimRects(grid, |grid|, trimW, trimH);
    CropRunShapes(cs, rects, mc, round2);
    CropRunDistinct(cs, rects, mc, round2);
    CropRunProvenance(cs, rects, mc, round2);
    CandidatesWellFormed(grid, |grid|, trimW, trimH);
    var marks := CropMarks(grid, mc, trimW, trimH, round2);
    forall i | 0 <= i < |marks|
      ensures FromExteriorEdge(marks[i], grid, mc, trimW, trimH)
    {
      var j :| 0 <= j < |cs| && PlacedFrom(marks[i], cs[j], rects, mc);
      var c := cs[j];
      var k := CandidateCorner(grid, trimW, trimH, j);
      var p := CornerPoint(k, grid[c.cellIdx].trimOriginX, grid[c.cellIdx].trimOriginY, trimW, trimH);
      assert c == Candidate(c.cellIdx, c.edge, p.0, p.1, true);
      assert FromCorner(marks[i], grid, mc, trimW, trimH, c.cellIdx, c.edge, k);
    }
  }

  /** Every candidate sits at a corner of its own cell. */
  lemma CandidateCorner(grid: seq<GridCell>, trimW: real, trimH: real, j: nat) returns (k: Corner)
    requires j < |Candidates(grid, |grid|, trimW, trimH)|
    ensures var c := Candidates(grid, |grid|, trimW, trimH)[j];
            c.cellIdx < |grid| &&
            (c.cx, c.cy) == CornerPoint(k, grid[c.cellIdx].trimOriginX, grid[c.cellIdx].trimOriginY, trimW, trimH)
  {
    k := CandidateCornerUpTo(grid, |grid|, trimW, trimH, j);
  }

  lemma {:induction false} CandidateCornerUpTo(grid: seq<GridCell>, n: nat, trimW: real, trimH: real, j: nat) returns (k: Corner)
    requires n <= |grid| && j < |Candidates(grid, n, trimW, trimH)|
    ensures var c := Candidates(grid, n, trimW, trimH)[j];
            c.cellIdx < |grid| &&
            (c.cx, c.cy) == CornerPoint(k, grid[c.cellIdx].trimOriginX, grid[c.cellIdx].trimOriginY, trimW, trimH)
  {
    var cs := Candidates(grid, n, trimW, trimH);
    var prev := Candidates(grid, n - 1, trimW, trimH);
    if grid[n - 1].pageIndex.None? {
      k := CandidateCornerUpTo(grid, n - 1, trimW, trimH, j);
    } else if j < |prev| {
      assert cs[j] == prev[j];
      k := CandidateCornerUpTo(grid, n - 1, trimW, trimH, j);
    } else {
      var cell := grid[n - 1];
      var own := CellCandidatesUpTo(cell, n - 1, trimW, trimH, |Corners|);
      assert cs[j] == own[j - |prev|];
      CandidatesOfCell(cell, n - 1, trimW, trimH, |Corners|);
      k := OwnCandidateCorner(cell, n - 1, trimW, trimH, |Corners|, j - |prev|);
    }
  }

  lemma {:induction false} OwnCandidateCorner(cell: GridCell, idx: nat, trimW: real, trimH: real, m: nat, j: nat)
    returns (k: Corner)
    requires m <= |Corners| && j < |CellCandidatesUpTo(cell, idx, trimW, trimH, m)|
    ensures var c := CellCandidatesUpTo(cell, idx, trimW, trimH, m)[j];
            (c.cx, c.cy) == CornerPoint(k, cell.trimOriginX, cell.trimOriginY, trimW, trimH)
  {
    var prev := CellCandidatesUpTo(cell, idx, trimW, trimH, m - 1);
    if j < |prev| {
      k := OwnCandidateCorner(cell, idx, trimW, trimH, m - 1, j);
    } else {
      k := Corners[m - 1];
    }
  }

  // ---------------------------------------------------------------- fixed marks

  /** The four registration targets: left, right, bottom and top centre of the sheet
      as configured, inset by half the mark margin. */
  function RegistrationPositions(sheet: SheetConfig): (ps: seq<(real, real)>)
    ensures |ps| == 4
  {
    var sw, sh, margin := sheet.sheetWidth, sheet.sheetHeight, sheet.markMargin / 2.0;
    [(margin, sh / 2.0), (sw - margin, sh / 2.0), (sw / 2.0, margin), (sw / 2.0, sh - margin)]
  }

  function RegistrationMark(px: real, py: real): MarkObject
  {
    MarkObject(px, py, 0.0, 0.0, RegistrationProps(4.0, 6.0, 0.25, "registration"))
  }

  /** The registration group: one target at each registration position. */
  function RegistrationMarks(sheet: SheetConfig): (marks: seq<MarkObject>)
    ensures |marks| == 4
    ensures forall i :: 0 <= i < 4 ==> marks[i].Kind() == RegistrationKind
  {
    var ps := RegistrationPositions(sheet);
    seq(4, i requires 0 <= i < 4 => RegistrationMark(ps[i].0, ps[i].1))
  }

  /** `place_registration_marks`. */
  method PlaceRegistrationMarks(sheet: SheetConfig) returns (marks: seq<MarkObject>)
    ensures marks == RegistrationMarks(sheet)
    ensures forall i :: 0 <= i < 4 ==> marks[i].props.RegistrationProps? && marks[i].props.radius == 4.0
  {
    var sw, sh := sheet.sheetWidth, sheet.sheetHeight;
    var margin := sheet.markMargin / 2.0;
    var positions := [(margin, sh / 2.0), (sw - margin, sh / 2.0), (sw / 2.0, margin), (sw / 2.0, sh - margin)];
    marks := [];
    for i := 0 to |positions|
      invariant |marks| == i
      invariant forall j :: 0 <= j < i ==> marks[j] == RegistrationMark(positions[j].0, positions[j].1)
    {
      marks := marks + [RegistrationMark(positions[i].0, positions[i].1)];
    }
    assert positions == RegistrationPositions(sheet);
  }

  /** The registration targets sit at the middle of each side, `mark_margin / 2`
      in from it, in pairs mirrored about the sheet's centre lines. */
  lemma RegistrationMarksCentred(sheet: SheetConfig)
    ensures var ps := RegistrationPositions(sheet);
            var inset := sheet.markMargin / 2.0;
            ps[0].0 == inset && sheet.sheetWidth - ps[1].0 == inset &&
            ps[2].1 == inset && sheet.sheetHeight - ps[3].1 == inset &&
            ps[0].0 + ps[1].0 == sheet.sheetWidth && ps[0].1 == ps[1].1 == sheet.sheetHeight / 2.0 &&
            ps[2].1 + ps[3].1 == sheet.sheetHeight && ps[2].0 == ps[3].0 == sheet.sheetWidth / 2.0
  {
  }

  /** The twelve patch colors: the four process inks, their overprints, then black
      at 100, 75, 50 and 25 percent. */
  const ColorBarColors: seq<Cmyk> := [
    Cmyk(1.0, 0.0, 0.0, 0.0), Cmyk(0.0, 1.0, 0.0, 0.0), Cmyk(0.0, 0.0, 1.0, 0.0), Cmyk(0.0, 0.0, 0.0, 1.0),
    Cmyk(1.0, 1.0, 0.0, 0.0), Cmyk(1.0, 0.0, 1.0, 0.0), Cmyk(0.0, 1.0, 1.0, 0.0), Cmyk(1.0, 1.0, 1.0, 0.0),
    Cmyk(0.0, 0.0, 0.0, 1.0), Cmyk(0.0, 0.0, 0.0, 0.75), Cmyk(0.0, 0.0, 0.0, 0.5), Cmyk(0.0, 0.0, 0.0, 0.25)]

  const PatchSize: real := 4.0
  const PatchGap: real := 1.0
  const BarY: real := 2.0

  function ColorBarPatch(sheet: SheetConfig, i: nat): MarkObject
    requires i < |ColorBarColors|
  {
    MarkObject(sheet.markMargin + i as real * (PatchSize + PatchGap), BarY, 0.0, 0.0,
               ColorBarProps(PatchSize, PatchSize, ColorBarColors[i]))
  }

  /** The color-bar group: one patch per color, in order. */
  function ColorBars(sheet: SheetConfig): (marks: seq<MarkObject>)
    ensures |marks| == 12
    ensures forall i :: 0 <= i < 12 ==> marks[i].Kind() == ColorBarKind
  {
    seq(12, i requires 0 <= i < 12 => ColorBarPatch(sheet, i))
  }

  /** `place_color_bars`: one 4 x 4 mm patch per color, 5 mm apart, starting at the
      mark margin, 2 mm above the sheet's bottom edge. */
  method PlaceColorBars(sheet: SheetConfig) returns (marks: seq<MarkObject>)
    ensures marks == ColorBars(sheet)
    ensures forall i :: 0 <= i < 12 ==>
              marks[i].y1 == 2.0 && marks[i].x1 == sheet.markMargin + 5.0 * i as real &&
              marks[i].props.ColorBarProps? && marks[i].props.width == 4.0 && marks[i].props.height == 4.0
  {
    var barY := 2.0;
    var barStartX := sheet.markMargin;
    var patchSize := 4.0;
    var patchGap := 1.0;
    marks := [];
    for i := 0 to |ColorBarColors|
      invariant |marks| == i
      invariant forall j :: 0 <= j < i ==> marks[j] == ColorBarPatch(sheet, j)
    {
      var x := barStartX + i as real * (patchSize + patchGap);
      marks := marks + [MarkObject(x, barY, 0.0, 0.0, ColorBarProps(patchSize, patchSize, ColorBarColors[i]))];
    }
  }

  /** The square a color-bar patch covers. */
  function PatchRect(m: MarkObject): Rectangle
    requires m.props.ColorBarProps?
  {
    Rectangle(m.x1, m.y1, m.props.width, m.props.height)
  }

  /** Distinct patches never overlap: a 1 mm gap separates neighbours. */
  lemma ColorBarsDisjoint(sheet: SheetConfig, i: nat, j: nat)
    requires i < j < |ColorBarColors|
    ensures !RectsOverlap(PatchRect(ColorBarPatch(sheet, i)), PatchRect(ColorBarPatch(sheet, j)))
    ensures ColorBarPatch(sheet, i).x1 + PatchSize < ColorBarPatch(sheet, j).x1
  {
    MulMonoReal(i + 1, j, PatchSize + PatchGap);
  }

  /** `place_fold_marks`: a 5 mm vertical mark at the bottom and at the top of the
      sheet's centre line, and only for a grid two columns wide. */
  function FoldMarks(layout: ImpositionLayout, sheet: SheetConfig): (marks: seq<MarkObject>)
    ensures layout.cols != 2 ==> marks == []
    ensures layout.cols == 2 ==> (|marks| == 2 &&
              forall i :: 0 <= i < 2 ==>
                marks[i].x1 == marks[i].x2 == sheet.sheetWidth / 2.0 && marks[i].props == FoldProps(5.0, "vertical") &&
                (marks[i].y1 - marks[i].y2 == 5.0 || marks[i].y2 - marks[i].y1 == 5.0))
    ensures layout.cols == 2 ==> marks[0].y1 == 0.0 && marks[1].y1 == sheet.sheetHeight
  {
    if layout.cols == 2 then
      var foldX := sheet.sheetWidth / 2.0;
      [MarkObject(foldX, 0.0, foldX, 5.0, FoldProps(5.0, "vertical")),
       MarkObject(foldX, sheet.sheetHeight, foldX, sheet.sheetHeight - 5.0, FoldProps(5.0, "vertical"))]
    else []
  }

  // ---------------------------------------------------------------- slug

  /** The slug text of one item of `slug_text_content`, or none for an item the
      placer does not know. `dateText` stands for the current time as
      `%Y-%m-%d %H:%M`. */
  function SlugPart(item: string, filename: string, dateText: string, sheetNum: int, totalSheets: int): Option<string>
  {
    if item == "filename" then Some("File: " + filename)
    else if item == "date" then Some("Date: " + dateText)
    else if item == "sheet_number" then Some("Sheet: " + IntToString(sheetNum) + " of " + IntToString(totalSheets))
    else if item == "color_profile" then Some("Profile: CMYK")
    else None
  }

  /** The texts of the known items, in order. */
  function SlugParts(items: seq<string>, filename: string, dateText: string, sheetNum: int, totalSheets: int): (parts: seq<string>)
    ensures |parts| <= |items|
  {
    if |items| == 0 then []
    else
      var init := SlugParts(items[..|items| - 1], filename, dateText, sheetNum, totalSheets);
      match SlugPart(items[|items| - 1], filename, dateText, sheetNum, totalSheets)
      case Some(t) => init + [t]
      case None => init
  }

  /** Python's `sep.join(parts)`. */
  function Join(parts: seq<string>, sep: string): string
  {
    if |parts| == 0 then "" else if |parts| == 1 then parts[0] else parts[0] + sep + Join(parts[1..], sep)
  }

  const SlugSeparator: string := "  |  "

  /** The slug's text for a mark configuration. */
  function SlugText(mc: MarkConfig, filename: string, dateText: string, sheetNum: int, totalSheets: int): string
  {
    Join(SlugParts(mc.slugTextContent, filename, dateText, sheetNum, totalSheets), SlugSeparator)
  }

  function SlugMark(sheet: SheetConfig, text: string): MarkObject
  {
    MarkObject(sheet.markMargin, sheet.sheetHeight - 3.0, 0.0, 0.0, SlugProps(text, 6, "Helvetica", "registration"))
  }

  /** `place_slug_info`: one text mark, 3 mm below the sheet's top edge at the mark
      margin, joining the known items' texts. */
  method PlaceSlugInfo(sheet: SheetConfig, mc: MarkConfig, filename: string, dateText: string,
                       sheetNum: int, totalSheets: int) returns (marks: seq<MarkObject>)
    ensures marks == [SlugMark(sheet, SlugText(mc, filename, dateText, sheetNum, totalSheets))]
  {
    var slugY := sheet.sheetHeight - 3.0;
    var slugX := sheet.markMargin;
    var textParts: seq<string> := [];
    for i := 0 to |mc.slugTextContent|
      invariant textParts == SlugParts(mc.slugTextContent[..i], filename, dateText, sheetNum, totalSheets)
    {
      var item := mc.slugTextContent[i];
      assert mc.slugTextContent[..i + 1][..i] == mc.slugTextContent[..i];
      if item == "filename" {
        textParts := textParts + ["File: " + filename];
      } else if item == "date" {
        textParts := textParts + ["Date: " + dateText];
      } else if item == "sheet_number" {
        textParts := textParts + ["Sheet: " + IntToString(sheetNum) + " of " + IntToString(totalSheets)];
      } else if item == "color_profile" {
        textParts := textParts + ["Profile: CMYK"];
      }
    }
    assert mc.slugTextContent[..|mc.slugTextContent|] == mc.slugTextContent;
    var slugText := Join(textParts, SlugSeparator);
    marks := [MarkObject(slugX, slugY, 0.0, 0.0, SlugProps(slugText, 6, "Helvetica", "registration"))];
  }

  /** An item the placer does not know adds nothing to the slug. */
  lemma UnknownSlugItemSkipped(items: seq<string>, item: string, filename: string, dateText: string,
                               sheetNum: int, totalSheets: int)
    requires item !in ["filename", "date", "sheet_number", "color_profile"]
    ensures SlugParts(items + [item], filename, dateText, sheetNum, totalSheets)
            == SlugParts(items, filename, dateText, sheetNum, totalSheets)
  {
    assert (items + [item])[..|items|] == items;
  }

  /** The default slug items give the file name, the date and the sheet number,
      separated by `"  |  "`. */
  lemma DefaultSlugText(filename: string, dateText: string, sheetNum: nat, totalSheets: nat)
    ensures SlugText(DefaultMarkConfig(), filename, dateText, sheetNum, totalSheets)
            == ("File: " + filename) + SlugSeparator + ("Date: " + dateText) + SlugSeparator +
               ("Sheet: " + NatToString(sheetNum) + " of " + NatToString(totalSheets))
  {
    var items := DefaultMarkConfig().slugTextContent;
    var a, b, c := "File: " + filename, "Date: " + dateText,
                   "Sheet: " + NatToString(sheetNum) + " of " + NatToString(totalSheets);
    assert items[..1][..0] == [];
    assert SlugParts(items[..1], filename, dateText, sheetNum, totalSheets) == [a];
    assert items[..2][..1] == items[..1];
    assert SlugParts(items[..2], filename, dateText, sheetNum, totalSheets) == [a, b];
    assert items[..2] == items[..|items| - 1];
    var parts := SlugParts(items, filename, dateText, sheetNum, totalSheets);
    assert parts == [a, b, c];
    assert parts[1..] == [b, c];
    assert parts[1..][1..] == [c];
    assert Join(parts[1..][1..], SlugSeparator) == c;
    assert Join(parts[1..], SlugSeparator) == b + SlugSeparator + c;
  }

  // ---------------------------------------------------------------- all marks

  /** The marks of one sheet side: crop, registration, color-bar, fold and slug
      marks, in that order, each group only when its flag is on. */
  function AllMarks(grid: seq<GridCell>, layout: ImpositionLayout, mc: MarkConfig, sheet: SheetConfig,
                    trimW: real, trimH: real, filename: string, dateText: string, sheetNum: int, totalSheets: int,
                    round2: real -> real): seq<MarkObject>
  {
    (if mc.cropMarksEnabled then CropMarks(grid, mc, trimW, trimH, round2) else []) +
    (if mc.registrationMarksEnabled then RegistrationMarks(sheet) else []) +
    (if mc.colorBarsEnabled then ColorBars(sheet) else []) +
    (if mc.foldMarksEnabled then FoldMarks(layout, sheet) else []) +
    (if mc.slugInfoEnabled then [SlugMark(sheet, SlugText(mc, filename, dateText, sheetNum, totalSheets))] else [])
  }

  /** `place_all_marks`. */
  method PlaceAllMarks(grid: seq<GridCell>, layout: ImpositionLayout, mc: MarkConfig, bleed: BleedConfig,
                       sheet: SheetConfig, trimW: real, trimH: real, filename: string, dateText: string,
                       sheetNum: int, totalSheets: int, round2: real -> real) returns (marks: seq<MarkObject>)
    ensures marks == AllMarks(grid, layout, mc, sheet, trimW, trimH, filename, dateText, sheetNum, totalSheets, round2)
  {
    var crop, reg, bars, fold, slug := [], [], [], [], [];
    if mc.cropMarksEnabled {
      crop := PlaceCropMarks(grid, layout, mc, trimW, trimH, round2);
    }
    if mc.registrationMarksEnabled {
      reg := PlaceRegistrationMarks(sheet);
    }
    if mc.colorBarsEnabled {
      bars := PlaceColorBars(sheet);
    }
    if mc.foldMarksEnabled {
      fold := FoldMarks(layout, sheet);
    }
    if mc.slugInfoEnabled {
      slug := PlaceSlugInfo(sheet, mc, filename, dateText, sheetNum, totalSheets);
    }
    marks := crop + reg + bars + fold + slug;
  }

  /** The number of marks of a given kind. */
  function CountType(marks: seq<MarkObject>, t: MarkKind): nat
  {
    if |marks| == 0 then 0
    else CountType(marks[..|marks| - 1], t) + (if marks[|marks| - 1].Kind() == t then 1 else 0)
  }

  lemma {:induction false} CountTypeAppend(a: seq<MarkObject>, b: seq<MarkObject>, t: MarkKind)
    ensures CountType(a + b, t) == CountType(a, t) + CountType(b, t)
    decreases |b|
  {
    if |b| == 0 {
      assert a + b == a;
    } else {
      assert (a + b)[..|a + b| - 1] == a + b[..|b| - 1];
      CountTypeAppend(a, b[..|b| - 1], t);
    }
  }

  /** A sequence whose marks all have type `t` counts them all for `t` and none for
      any other type. */
  lemma {:induction false} CountUniform(marks: seq<MarkObject>, t: MarkKind)
    requires forall i :: 0 <= i < |marks| ==> marks[i].Kind() == t
    ensures forall u :: CountType(marks, u) == if u == t then |marks| else 0
  {
    if |marks| > 0 {
      CountUniform(marks[..|marks| - 1], t);
    }
  }

  lemma {:induction false} CountFive(a: seq<MarkObject>, b: seq<MarkObject>, c: seq<MarkObject>,
                                     d: seq<MarkObject>, e: seq<MarkObject>, t: MarkKind)
    ensures CountType(a + b + c + d + e, t)
         == CountType(a, t) + CountType(b, t) + CountType(c, t) + CountType(d, t) + CountType(e, t)
  {
    CountTypeAppend(a, b, t);
    CountTypeAppend(a + b, c, t);
    CountTypeAppend(a + b + c, d, t);
    CountTypeAppend(a + b + c + d, e, t);
  }

  lemma {:induction false} CropMarksAreCrop(grid: seq<GridCell>, mc: MarkConfig, trimW: real, trimH: real, round2: real -> real)
    ensures forall i :: 0 <= i < |CropMarks(grid, mc, trimW, trimH, round2)| ==>
              CropMarks(grid, mc, trimW, trimH, round2)[i].Kind() == CropKind
  {
    CropMarksProperties(grid, mc, trimW, trimH, round2);
  }

  /** Each group is present exactly when its flag is on: 4 registration targets, 12
      color patches, one slug, 2 fold marks when the grid is two columns wide, and
      crop marks only when enabled. */
  lemma AllMarksGroups(grid: seq<GridCell>, layout: ImpositionLayout, mc: MarkConfig, sheet: SheetConfig,
                       trimW: real, trimH: real, filename: string, dateText: string, sheetNum: int, totalSheets: int,
                       round2: real -> real)
    ensures var marks := AllMarks(grid, layout, mc, sheet, trimW, trimH, filename, dateText, sheetNum, totalSheets, round2);
            CountType(marks, RegistrationKind) == (if mc.registrationMarksEnabled then 4 else 0) &&
            CountType(marks, ColorBarKind) == (if mc.colorBarsEnabled then 12 else 0) &&
            CountType(marks, FoldKind) == (if mc.foldMarksEnabled && layout.cols == 2 then 2 else 0) &&
            CountType(marks, SlugKind) == (if mc.slugInfoEnabled then 1 else 0) &&
            (CountType(marks, CropKind) > 0 ==> mc.cropMarksEnabled)
  {
    var crop := if mc.cropMarksEnabled then CropMarks(grid, mc, trimW, trimH, round2) else [];
    var reg := if mc.registrationMarksEnabled then RegistrationMarks(sheet) else [];
    var bars := if mc.colorBarsEnabled then ColorBars(sheet) else [];
    var fold := if mc.foldMarksEnabled then FoldMarks(layout, sheet) else [];
    var slug := if mc.slugInfoEnabled then [SlugMark(sheet, SlugText(mc, filename, dateText, sheetNum, totalSheets))] else [];
    assert AllMarks(grid, layout, mc, sheet, trimW, trimH, filename, dateText, sheetNum, totalSheets, round2)
        == crop + reg + bars + fold + slug;
    CropMarksAreCrop(grid, mc, trimW, trimH, round2);
    assert AllOfKind(crop, CropKind) && AllOfKind(reg, RegistrationKind) && AllOfKind(bars, ColorBarKind);
    assert AllOfKind(fold, FoldKind) && AllOfKind(slug, SlugKind);
    GroupsCount(crop, reg, bars, fold, slug);
  }

  /** Every mark of `marks` has type `t`. */
  predicate AllOfKind(marks: seq<MarkObject>, t: MarkKind)
  {
    forall i :: 0 <= i < |marks| ==> marks[i].Kind() == t
  }

  /** Five groups of one type each, laid one after the other, count as their
      lengths. */
  lemma GroupsCount(crop: seq<MarkObject>, reg: seq<MarkObject>, bars: seq<MarkObject>, fold: seq<MarkObject>,
                    slug: seq<MarkObject>)
    requires AllOfKind(crop, CropKind) && AllOfKind(reg, RegistrationKind) && AllOfKind(bars, ColorBarKind)
    requires AllOfKind(fold, FoldKind) && AllOfKind(slug, SlugKind)
    ensures CountType(crop + reg + bars + fold + slug, CropKind) == |crop|
    ensures CountType(crop + reg + bars + fold + slug, RegistrationKind) == |reg|
    ensures CountType(crop + reg + bars + fold + slug, ColorBarKind) == |bars|
    ensures CountType(crop + reg + bars + fold + slug, FoldKind) == |fold|
    ensures CountType(crop + reg + bars + fold + slug, SlugKind) == |slug|
  {
    CountUniform(crop, CropKind);
    CountUniform(reg, RegistrationKind);
    CountUniform(bars, ColorBarKind);
    CountUniform(fold, FoldKind);
    CountUniform(slug, SlugKind);
    CountFive(crop, reg, bars, fold, slug, RegistrationKind);
    CountFive(crop, reg, bars, fold, slug, ColorBarKind);
    CountFive(crop, reg, bars, fold, slug, FoldKind);
    CountFive(crop, reg, bars, fold, slug, SlugKind);
    CountFive(crop, reg, bars, fold, slug, CropKind);
  }
}
