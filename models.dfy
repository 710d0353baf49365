/** The records of the imposition backend, with the defaults each field takes when
    it is not given. Lengths are millimetres, held as reals; the sheet's origin is its
    lower-left corner and y grows upward. */
module Models {
  import opened Wrappers

  /** An axis-aligned rectangle with lower-left corner (x, y). */
  datatype Rectangle = Rectangle(x: real, y: real, width: real, height: real)
  {
    function LeftEdge(): real { x }

    function RightEdge(): (e: real)
      ensures e - LeftEdge() == width
      ensures width >= 0.0 ==> LeftEdge() <= e
    {
      x + width
    }

    function BottomEdge(): real { y }

    function TopEdge(): (e: real)
      ensures e - BottomEdge() == height
      ensures height >= 0.0 ==> BottomEdge() <= e
    {
      y + height
    }
  }

  /** `Rectangle()`: every field defaults to 0. */
  const EmptyRectangle := Rectangle(0.0, 0.0, 0.0, 0.0)

  datatype DetectedBleed = DetectedBleed(top: real, bottom: real, left: real, right: real)

  const NoDetectedBleed := DetectedBleed(0.0, 0.0, 0.0, 0.0)

  /** The boxes of one source page, converted to millimetres. */
  datatype PageGeometry = PageGeometry(
    mediaBox: Rectangle,
    trimBox: Option<Rectangle>,
    bleedBox: Option<Rectangle>,
    artBox: Option<Rectangle>,
    detectedBleed: DetectedBleed,
    hasExistingMarks: bool,
    existingMarksStripped: bool,
    pageIndex: nat)

  /** The four edges of a trim rectangle, as the backend names them. */
  datatype Edge = Top | Bottom | Left | Right

  lemma EdgeCases()
    ensures forall e: Edge :: e.Top? || e.Bottom? || e.Left? || e.Right?
  {
  }

  /** The order in which the bleed manager visits the edges of a cell. */
  const Edges: seq<Edge> := [Top, Bottom, Left, Right]

  datatype BleedConfig = BleedConfig(top: real, bottom: real, left: real, right: real, uniform: bool)
  {
    function Get(e: Edge): real
    {
      match e
      case Top => top
      case Bottom => bottom
      case Left => left
      case Right => right
    }
  }

  /** `BleedConfig()`: 3 mm on every edge, flagged uniform. */
  function DefaultBleedConfig(): (b: BleedConfig)
    ensures forall e: Edge :: b.Get(e) == 3.0
    ensures b.uniform
  {
    BleedConfig(3.0, 3.0, 3.0, 3.0, true)
  }

  datatype CropMarkColor = RegistrationColor | BlackOnly
  {
    /** The enum's string value. */
    function Value(): string
    {
      match this
      case RegistrationColor => "registration"
      case BlackOnly => "black_only"
    }
  }

  datatype MarkConfig = MarkConfig(
    cropMarksEnabled: bool,
    cropMarkLength: real,
    cropMarkOffset: real,
    cropMarkStrokeWeight: real,
    cropMarkColor: CropMarkColor,
    registrationMarksEnabled: bool,
    colorBarsEnabled: bool,
    foldMarksEnabled: bool,
    slugInfoEnabled: bool,
    slugTextContent: seq<string>)

  /** `MarkConfig()`: every kind of mark on, 5 mm crop marks set 3 mm off the trim,
      and a slug naming the file, the date and the sheet number. */
  function DefaultMarkConfig(): (m: MarkConfig)
    ensures m.cropMarksEnabled && m.registrationMarksEnabled && m.colorBarsEnabled
    ensures m.foldMarksEnabled && m.slugInfoEnabled
    ensures m.cropMarkLength == 5.0 && m.cropMarkOffset == 3.0 && m.cropMarkStrokeWeight == 0.25
    ensures m.cropMarkColor == RegistrationColor
    ensures m.slugTextContent == ["filename", "date", "sheet_number"]
  {
    MarkConfig(true, 5.0, 3.0, 0.25, RegistrationColor, true, true, true, true,
               ["filename", "date", "sheet_number"])
  }

  /** The press sheet. `orientation` is free text; only "landscape" and
      "portrait" have an effect. */
  datatype SheetConfig = SheetConfig(
    sheetWidth: real,
    sheetHeight: real,
    orientation: string,
    gripEdge: real,
    markMargin: real)

  /** `SheetConfig()`: SRA3-size landscape sheet (488 x 330 mm) with a 10 mm grip
      edge and an 8 mm mark margin. */
  function DefaultSheetConfig(): (s: SheetConfig)
    ensures s.sheetWidth == 488.0 && s.sheetHeight == 330.0
    ensures s.sheetWidth >= s.sheetHeight && s.orientation == "landscape"
    ensures s.gripEdge == 10.0 && s.markMargin == 8.0
  {
    SheetConfig(488.0, 330.0, "landscape", 10.0, 8.0)
  }

  datatype ImpositionMode = StepAndRepeat | BookletSaddleStitch | BookletPerfectBind | CutAndStack

  datatype FlipEdge = Long | Short

  datatype ImpositionConfig = ImpositionConfig(
    mode: ImpositionMode,
    trimWidth: real,
    trimHeight: real,
    bleed: BleedConfig,
    marks: MarkConfig,
    sheet: SheetConfig,
    gapBetweenItems: real,
    duplex: bool,
    flipEdge: FlipEdge,
    autoRotate: bool,
    creepAdjustment: real)

  /** `ImpositionConfig()`: 90 x 55 mm business cards, stepped and repeated, with
      every other field at its own default. */
  function DefaultImpositionConfig(): (c: ImpositionConfig)
    ensures c.mode == StepAndRepeat && c.trimWidth == 90.0 && c.trimHeight == 55.0
    ensures c.bleed == DefaultBleedConfig() && c.marks == DefaultMarkConfig()
    ensures c.sheet == DefaultSheetConfig()
    ensures c.gapBetweenItems == 0.0 && !c.duplex && c.flipEdge == Long
    ensures c.autoRotate && c.creepAdjustment == 0.0
  {
    ImpositionConfig(StepAndRepeat, 90.0, 55.0, DefaultBleedConfig(), DefaultMarkConfig(),
                     DefaultSheetConfig(), 0.0, false, Long, true, 0.0)
  }

  datatype EdgeFlags = EdgeFlags(top: bool, bottom: bool, left: bool, right: bool)
  {
    function Get(e: Edge): bool
    {
      match e
      case Top => top
      case Bottom => bottom
      case Left => left
      case Right => right
    }
  }

  const NoInteriorEdges := EdgeFlags(false, false, false, false)

  datatype EdgeBleed = EdgeBleed(top: real, bottom: real, left: real, right: real)
  {
    function Get(e: Edge): real
    {
      match e
      case Top => top
      case Bottom => bottom
      case Left => left
      case Right => right
    }
  }

  const ZeroEdgeBleed := EdgeBleed(0.0, 0.0, 0.0, 0.0)

  /** One slot of the imposition grid. `pageIndex` is the 0-based source page
      placed there, or None for an empty slot. */
  datatype GridCell = GridCell(
    row: int,
    col: int,
    pageIndex: Option<nat>,
    rotation: int,
    clipRect: Option<Rectangle>,
    bleedPerEdge: EdgeBleed,
    isInteriorEdge: EdgeFlags,
    trimOriginX: real,
    trimOriginY: real)

  /** `GridCell(row=, col=, page_index=, rotation=)` with the other fields at their
      defaults: no clip rectangle, no bleed, no interior edge, origin (0, 0). */
  function NewCell(row: int, col: int, pageIndex: Option<nat>, rotation: int): (c: GridCell)
    ensures c.row == row && c.col == col && c.pageIndex == pageIndex && c.rotation == rotation
    ensures c.clipRect.None?
    ensures forall e: Edge :: c.bleedPerEdge.Get(e) == 0.0 && !c.isInteriorEdge.Get(e)
    ensures c.trimOriginX == 0.0 && c.trimOriginY == 0.0
  {
    GridCell(row, col, pageIndex, rotation, None, ZeroEdgeBleed, NoInteriorEdges, 0.0, 0.0)
  }

  /** The four CMYK ink fractions of a color-bar patch. */
  datatype Cmyk = Cmyk(c: real, m: real, y: real, k: real)

  /** The type-specific `properties` of a mark. */
  datatype MarkProps =
    | CropProps(stroke: real, color: CropMarkColor)
    | RegistrationProps(radius: real, crosshairLength: real, lineWeight: real, regColor: string)
    | ColorBarProps(width: real, height: real, cmyk: Cmyk)
    | FoldProps(length: real, direction: string)
    | SlugProps(text: string, fontSize: int, font: string, slugColor: string)

  /** The kinds of mark, each with its `type` string. */
  datatype MarkKind = CropKind | RegistrationKind | ColorBarKind | FoldKind | SlugKind
  {
    function Name(): string
    {
      match this
      case CropKind => "crop"
      case RegistrationKind => "registration"
      case ColorBarKind => "color_bar"
      case FoldKind => "fold"
      case SlugKind => "slug_text"
    }
  }

  /** A printer's mark; what x1, y1, x2, y2 mean depends on its type. */
  datatype MarkObject = MarkObject(x1: real, y1: real, x2: real, y2: real, props: MarkProps)
  {
    function Kind(): MarkKind
    {
      match props
      case CropProps(_, _) => CropKind
      case RegistrationProps(_, _, _, _) => RegistrationKind
      case ColorBarProps(_, _, _) => ColorBarKind
      case FoldProps(_, _) => FoldKind
      case SlugProps(_, _, _, _) => SlugKind
    }

    /** The mark's `type` string. */
    function Type(): string
    {
      Kind().Name()
    }
  }

  /** The layout of one sheet side: grid size, cells per sheet, number of sheets,
      the rotation applied to every cell, and the cells themselves. */
  datatype ImpositionLayout = ImpositionLayout(
    rows: int,
    cols: int,
    nUp: int,
    totalSheets: int,
    cellRotation: int,
    grid: seq<GridCell>)

  /** A remark the analyser makes about the source document. */
  datatype AnalysisWarning =
    | NoTrimBox(pageNumber: nat)
    | MixedPageSize(pageNumber: nat, width: real, height: real, firstWidth: real, firstHeight: real)

  datatype AnalysisResult = AnalysisResult(pageCount: nat, pages: seq<PageGeometry>, warnings: seq<AnalysisWarning>)

  datatype PresetConfig = PresetConfig(name: string, config: ImpositionConfig)
}
