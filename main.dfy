/** The web API in front of the imposition engine: the upload checks and the
    in-memory session store with its cap of ten, the layout preview, and the
    preset endpoints (name sanitising on save, built-in presets before saved ones
    on lookup). Routing, streaming and the preset files themselves are outside the
    model: the saved presets are a map from file stem to preset. */
module Api {
  import opened Wrappers
  import opened Models
  import opened ImpositionEngine
  import opened BleedManager
  import opened MarkPlacer
  import opened PdfAnalyzer
  import opened PdfOutput

  type Byte = x: int | 0 <= x < 256

  /** Why a request is refused. */
  datatype ApiError =
    | NotPdf
    | EmptyFile
    | AnalysisRejected(cause: AnalyzeError)
    | SessionNotFound
    | InvalidPresetName
    | PresetNotFound

  /** The HTTP status each refusal is raised with. */
  function Status(e: ApiError): (code: nat)
    ensures code == 404 <==> e.SessionNotFound? || e.PresetNotFound?
    ensures code == 400 <==> !(e.SessionNotFound? || e.PresetNotFound?)
  {
    match e
    case SessionNotFound => 404
    case PresetNotFound => 404
    case _ => 400
  }

  // ---------------------------------------------------------------- upload checks

  /** `str.lower()` on the ASCII letters. */
  function Lower(c: char): char
  {
    if 'A' <= c <= 'Z' then (c as int - 'A' as int + 'a' as int) as char else c
  }

  function LowerString(s: string): (r: string)
    ensures |r| == |s| && forall i :: 0 <= i < |s| ==> r[i] == Lower(s[i])
  {
    if |s| == 0 then [] else LowerString(s[..|s| - 1]) + [Lower(s[|s| - 1])]
  }

  predicate EndsWith(s: string, suffix: string)
  {
    |suffix| <= |s| && s[|s| - |suffix|..] == suffix
  }

  /** `filename.lower().endswith(".pdf")`. */
  predicate HasPdfExtension(filename: string)
  {
    EndsWith(LowerString(filename), ".pdf")
  }

  /** The extension test ignores case, letter by letter, and needs the dot; an
      empty name never passes it. */
  lemma PdfExtensionIgnoresCase(filename: string)
    ensures HasPdfExtension(filename) <==>
              var n := |filename|;
              n >= 4 && filename[n - 4] == '.' && (filename[n - 3] == 'p' || filename[n - 3] == 'P') &&
              (filename[n - 2] == 'd' || filename[n - 2] == 'D') && (filename[n - 1] == 'f' || filename[n - 1] == 'F')
  {
    var l := LowerString(filename);
    var n := |filename|;
    if n >= 4 {
      var tail := l[n - 4..];
      assert tail == [l[n - 4], l[n - 3], l[n - 2], l[n - 1]];
    }
  }

  /** The checks `upload_pdf` makes before it analyses anything: a missing or
      non-PDF file name first, then an empty body. */
  function UploadCheck(filename: string, content: seq<Byte>): (r: Option<ApiError>)
    ensures r == Some(NotPdf) <==> !HasPdfExtension(filename)
    ensures r == Some(EmptyFile) <==> HasPdfExtension(filename) && |content| == 0
    ensures r.None? <==> HasPdfExtension(filename) && |content| > 0
  {
    if |filename| == 0 || !HasPdfExtension(filename) then Some(NotPdf)
    else if |content| == 0 then Some(EmptyFile)
    else None
  }

  // ---------------------------------------------------------------- session store

  /** The most sessions kept at once. */
  const MaxSessions: nat := 10

  /** What an upload leaves behind: the bytes, the name and the analysis. */
  datatype Session = Session(pdfBytes: seq<Byte>, filename: string, analysis: AnalysisResult)

  /** The reply to a successful upload. */
  datatype UploadReply = UploadReply(sessionId: string, filename: string, pageCount: nat,
                                     pages: seq<PageGeometry>, warnings: seq<AnalysisWarning>)

  /** The session dictionary as a value: its keys in insertion order and the
      entries. */
  datatype Store = Store(keys: seq<string>, sessions: map<string, Session>)

  predicate Distinct(s: seq<string>)
  {
    forall i, j :: 0 <= i < j < |s| ==> s[i] != s[j]
  }

  /** The keys list the dictionary's keys once each, and there are at most ten. */
  predicate StoreValid(st: Store)
  {
    Distinct(st.keys) && (forall k :: k in st.sessions ==> k in st.keys) && (forall k :: k in st.keys ==> k in st.sessions) && |st.keys| <= MaxSessions
  }

  /** `_sessions[id] = session`: a new key goes last, an existing key keeps its
      place and gets the new value. */
  function Put(st: Store, id: string, s: Session): Store
  {
    Store(if id in st.sessions then st.keys else st.keys + [id], st.sessions[id := s])
  }

  /** The cleanup after an insertion: with more than ten entries, the first
      inserted key goes. */
  function Evict(st: Store): Store
  {
    if |st.sessions| > MaxSessions && |st.keys| > 0 then Store(st.keys[1..], st.sessions - {st.keys[0]}) else st
  }

  /** What `upload_pdf` answers and the store it leaves. `id` stands for the fresh
      `uuid4()` and `raws` for the pages the PDF parser reads from `content`. */
  function Upload(st: Store, filename: string, content: seq<Byte>, raws: seq<RawPage>, round1: real -> real,
                  id: string): (Result<UploadReply, ApiError>, Store)
  {
    match UploadCheck(filename, content)
    case Some(e) => (Err(e), st)
    case None =>
      match Analysis(raws, round1)
      case Err(e) => (Err(AnalysisRejected(e)), st)
      case Ok(a) =>
        (Ok(UploadReply(id, filename, a.pageCount, a.pages, a.warnings)),
         Evict(Put(st, id, Session(content, filename, a))))
  }

  /** A list without repeats has as many elements as its set. */
  lemma {:induction false} DistinctCard(s: seq<string>)
    requires Distinct(s)
    ensures |set x | x in s| == |s|
  {
    if |s| > 0 {
      var init := s[..|s| - 1];
      assert Distinct(init);
      DistinctCard(init);
      assert (set x | x in s) == (set x | x in init) + {s[|s| - 1]};
      assert s[|s| - 1] !in (set x | x in init);
    }
  }

  /** The dictionary holds as many entries as the key list. */
  lemma StoreSize(st: Store)
    requires Distinct(st.keys) && (forall k :: k in st.sessions ==> k in st.keys) && (forall k :: k in st.keys ==> k in st.sessions)
    ensures |st.sessions| == |st.keys|
  {
    DistinctCard(st.keys);
    assert st.sessions.Keys == set x | x in st.keys;
  }

  /** A refused upload leaves the store alone; the refusal is the first check that
      fails, in the order the handler makes them. */
  lemma UploadRefusals(st: Store, filename: string, content: seq<Byte>, raws: seq<RawPage>, round1: real -> real,
                       id: string)
    ensures Upload(st, filename, content, raws, round1, id).0.Err? ==> Upload(st, filename, content, raws, round1, id).1 == st
    ensures Upload(st, filename, content, raws, round1, id).0 == Err(NotPdf) <==> !HasPdfExtension(filename)
    ensures Upload(st, filename, content, raws, round1, id).0 == Err(EmptyFile) <==>
              HasPdfExtension(filename) && |content| == 0
    ensures Upload(st, filename, content, raws, round1, id).0.Ok? <==>
              HasPdfExtension(filename) && |content| > 0 && Analysis(raws, round1).Ok?
  {
  }

  /** Storing a session into a valid store and evicting keeps the store within
      its cap and keeps the new session. At most one other session goes: the
      oldest, and only when the store was full and the key new. Every other
      session stays as it was, and the key order is the dictionary's. */
  lemma PutEvictKeepsCap(st: Store, id: string, s: Session)
    requires StoreValid(st)
    ensures StoreValid(Evict(Put(st, id, s)))
    ensures id in Evict(Put(st, id, s)).sessions && Evict(Put(st, id, s)).sessions[id] == s
    ensures var st2 := Evict(Put(st, id, s));
            var evicts := |st.keys| == MaxSessions && id !in st.sessions;
            (evicts ==> st2.keys == st.keys[1..] + [id]) &&
            (!evicts ==> st2.keys == if id in st.sessions then st.keys else st.keys + [id]) &&
            forall k :: k in st.sessions && k != id ==>
              (k in st2.sessions <==> !(evicts && k == st.keys[0])) &&
              (k in st2.sessions ==> st2.sessions[k] == st.sessions[k])
  {
    var put := Put(st, id, s);
    assert Distinct(put.keys);
    StoreSize(put);
    if id !in st.sessions && |st.keys| == MaxSessions {
      EvictOldest(st, id, s);
    } else {
      assert Evict(put) == put;
    }
  }

  /** The full-store case: the new key goes last and the first key goes. */
  lemma EvictOldest(st: Store, id: string, s: Session)
    requires StoreValid(st) && id !in st.sessions && |st.keys| == MaxSessions
    ensures Evict(Put(st, id, s)) == Store(st.keys[1..] + [id], st.sessions[id := s] - {st.keys[0]})
    ensures StoreValid(Evict(Put(st, id, s)))
  {
    var put := Put(st, id, s);
    assert put.keys == st.keys + [id];
    SnocDistinct(st.keys, id);
    StoreSize(put);
    var keys := st.keys[1..] + [id];
    assert put.keys[1..] == keys;
    TailSnocMembers(st.keys, id);
  }

  /** Appending a new key keeps the keys distinct. */
  lemma SnocDistinct(keys: seq<string>, id: string)
    requires Distinct(keys) && id !in keys
    ensures Distinct(keys + [id])
  {
  }

  /** Dropping the first of distinct keys and appending a new one leaves the new
      key and the other old keys. */
  lemma TailSnocMembers(keys: seq<string>, id: string)
    requires Distinct(keys) && |keys| > 0
    ensures forall k :: k in keys[1..] + [id] <==> k == id || (k in keys && k != keys[0])
  {
    forall k | k in keys && k != keys[0] ensures k in keys[1..] {
      var i :| 0 <= i < |keys| && keys[i] == k;
      assert keys[1..][i - 1] == k;
    }
  }

  /** An accepted upload keeps the store valid and within its cap, keeps the new
      session, and evicts at most the oldest one, as `PutEvictKeepsCap` says. */
  lemma UploadKeepsCap(st: Store, filename: string, content: seq<Byte>, raws: seq<RawPage>, round1: real -> real,
                       id: string)
    requires StoreValid(st)
    ensures StoreValid(Upload(st, filename, content, raws, round1, id).1)
    ensures Upload(st, filename, content, raws, round1, id).0.Ok? ==>
              Analysis(raws, round1).Ok? &&
              Upload(st, filename, content, raws, round1, id).1 ==
                Evict(Put(st, id, Session(content, filename, Analysis(raws, round1).value)))
  {
    if UploadCheck(filename, content).None? && Analysis(raws, round1).Ok? {
      PutEvictKeepsCap(st, id, Session(content, filename, Analysis(raws, round1).value));
    }
  }

  /** `_sessions` with the order of its keys. */
  class SessionStore {
    var keys: seq<string>
    var sessions: map<string, Session>

    ghost predicate Valid()
      reads this
    {
      StoreValid(Store(keys, sessions))
    }

    constructor()
      ensures Valid() && keys == [] && sessions == map[]
    {
      keys := [];
      sessions := map[];
    }

    /** `upload_pdf`: check the file, analyse it, store the session and evict the
        oldest one beyond the cap. */
    method UploadPdf(filename: string, content: seq<Byte>, raws: seq<RawPage>, round1: real -> real, id: string)
      returns (r: Result<UploadReply, ApiError>)
      requires Valid()
      modifies this
      ensures Valid()
      ensures (r, Store(keys, sessions)) == Upload(Store(old(keys), old(sessions)), filename, content, raws, round1, id)
    {
      var check := UploadCheck(filename, content);
      if check.Some? {
        return Err(check.value);
      }
      var analysis := AnalyzePdf(raws, round1);
      if analysis.Err? {
        return Err(AnalysisRejected(analysis.error));
      }
      var a := analysis.value;
      if id !in sessions {
        keys := keys + [id];
      }
      sessions := sessions[id := Session(content, filename, a)];
      if |sessions| > MaxSessions && |keys| > 0 {
        var oldest := keys[0];
        keys := keys[1..];
        sessions := sessions - {oldest};
      }
      r := Ok(UploadReply(id, filename, a.pageCount, a.pages, a.warnings));
      UploadKeepsCap(Store(old(keys), old(sessions)), filename, content, raws, round1, id);
    }

    /** `preview_imposition` reads the store and changes nothing. */
    function PreviewFor(sessionId: string, config: ImpositionConfig, dateText: string, round2: real -> real)
      : (r: Result<PreviewData, ApiError>)
      reads this
      ensures r.Err? <==> sessionId !in sessions
      ensures r.Err? ==> r.error == SessionNotFound
      ensures r.Ok? ==> r.value == PreviewOf(sessions[sessionId], config, dateText, round2)
    {
      if sessionId !in sessions then Err(SessionNotFound)
      else Ok(PreviewOf(sessions[sessionId], config, dateText, round2))
    }
  }

  // ---------------------------------------------------------------- preview

  /** The preview reply: the layout of sheet 0, its grid after the bleed and
      position passes, the marks of sheet 1, the sheet size shown and the trim
      size on the sheet. The handler runs the passes on the layout's own list of
      cells, so the layout in the reply carries the updated grid too. */
  datatype PreviewData = PreviewData(layout: ImpositionLayout, grid: seq<GridCell>, marks: seq<MarkObject>,
                                     sheetWidth: real, sheetHeight: real, effW: real, effH: real, pageCount: nat)

  /** The sheet size the preview reports: turned to landscape when asked for and
      taller than wide, otherwise as configured. */
  function PreviewSheet(s: SheetConfig): (d: (real, real))
    ensures s.orientation == "landscape" && s.sheetWidth < s.sheetHeight ==> d == (s.sheetHeight, s.sheetWidth)
    ensures !(s.orientation == "landscape" && s.sheetWidth < s.sheetHeight) ==> d == (s.sheetWidth, s.sheetHeight)
  {
    if s.orientation == "landscape" && s.sheetWidth < s.sheetHeight then (s.sheetHeight, s.sheetWidth)
    else (s.sheetWidth, s.sheetHeight)
  }

  /** The preview of one session under a configuration. `dateText` stands for the
      slug's `datetime.now()`. */
  function PreviewOf(session: Session, config: ImpositionConfig, dateText: string, round2: real -> real): PreviewData
  {
    var a := session.analysis;
    var trim := JobTrim(config, a.pages);
    var layout := LayoutFor(config, a.pageCount, 0);
    var eff := EffectiveTrim(layout.cellRotation, trim.0, trim.1);
    var bled := PerCellBleed(layout.grid, layout.rows, layout.cols, config.bleed, config.gapBetweenItems);
    var grid := CellPositions(bled, config.sheet, layout.rows, layout.cols, config.bleed, config.gapBetweenItems,
                              eff.0, eff.1);
    var marks := AllMarks(grid, layout, config.marks, config.sheet, eff.0, eff.1, session.filename, dateText,
                          1, layout.totalSheets, round2);
    var sheet := PreviewSheet(config.sheet);
    PreviewData(layout.(grid := grid), grid, marks, sheet.0, sheet.1, eff.0, eff.1, a.pageCount)
  }

  /** The preview's trim: the configured one unless a dimension is 0, then page
      1's trim box, or its media box when it has none; turned a quarter exactly
      when the layout rotates the cells. */
  lemma PreviewTrim(session: Session, config: ImpositionConfig, dateText: string, round2: real -> real)
    requires |session.analysis.pages| > 0
    ensures var p := PreviewOf(session, config, dateText, round2);
            var page := session.analysis.pages[0];
            var trim := if config.trimWidth != 0.0 && config.trimHeight != 0.0 then (config.trimWidth, config.trimHeight)
                        else if page.trimBox.Some? then (page.trimBox.value.width, page.trimBox.value.height)
                        else (page.mediaBox.width, page.mediaBox.height);
            (p.layout.cellRotation == 90 ==> (p.effW, p.effH) == (trim.1, trim.0)) &&
            (p.layout.cellRotation != 90 ==> (p.effW, p.effH) == (trim.0, trim.1))
  {
  }

  /** The cells turn a quarter only when rotation is allowed and the turned grid
      holds strictly more. */
  lemma PreviewRotation(session: Session, config: ImpositionConfig, dateText: string, round2: real -> real)
    ensures var p := PreviewOf(session, config, dateText, round2);
            p.layout.cellRotation == 90 <==>
            config.autoRotate && RotatedCount(config).0 * RotatedCount(config).1 > NormalCount(config).0 * NormalCount(config).1
  {
  }

  /** The sheet size shown is the layout's oriented sheet except for a portrait
      sheet entered wider than tall, which the layout turns and the preview does
      not. */
  lemma PreviewSheetVersusLayout(s: SheetConfig)
    ensures PreviewSheet(s) == OrientSheet(s) <==>
              !(s.orientation == "portrait" && s.sheetWidth > s.sheetHeight) || s.sheetWidth == s.sheetHeight
    ensures s.orientation == "landscape" ==> PreviewSheet(s).0 >= PreviewSheet(s).1
  {
  }

  /** The preview grid is the layout's grid of sheet 0 after the bleed and
      position passes: same slots, same pages, each clipped to its trim plus its
      bleed; the layout in the reply is sheet 0's layout holding that grid. */
  lemma PreviewGridKeepsSlots(session: Session, config: ImpositionConfig, dateText: string, round2: real -> real)
    ensures var p := PreviewOf(session, config, dateText, round2);
            var before := LayoutFor(config, session.analysis.pageCount, 0);
            p.layout == before.(grid := p.grid) &&
            |p.grid| == |before.grid| &&
            forall i :: 0 <= i < |p.grid| ==>
              p.grid[i].row == before.grid[i].row && p.grid[i].col == before.grid[i].col &&
              p.grid[i].pageIndex == before.grid[i].pageIndex && p.grid[i].clipRect.Some?
  {
    var a := session.analysis;
    var layout := LayoutFor(config, a.pageCount, 0);
    var bled := PerCellBleed(layout.grid, layout.rows, layout.cols, config.bleed, config.gapBetweenItems);
    assert SameSlots(bled, layout.grid);
  }

  // ---------------------------------------------------------------- presets

  /** The characters a preset name may keep besides the alphanumeric ones. */
  predicate Kept(c: char, isAlnum: char -> bool)
  {
    isAlnum(c) || c == '-' || c == '_' || c == ' '
  }

  /** The generator in `save_preset`: drop every character that is neither
      alphanumeric nor one of `-`, `_` and space. `isAlnum` stands for Python's
      `str.isalnum`. */
  function KeepNameChars(s: string, isAlnum: char -> bool): (r: string)
    ensures |r| <= |s|
    ensures forall i :: 0 <= i < |r| ==> Kept(r[i], isAlnum)
  {
    if |s| == 0 then []
    else
      var rest := KeepNameChars(s[..|s| - 1], isAlnum);
      assert s == s[..|s| - 1] + [s[|s| - 1]];
      if Kept(s[|s| - 1], isAlnum) then rest + [s[|s| - 1]] else rest
  }

  /** The filter keeps every occurrence of a kept character and nothing else. */
  lemma {:induction false} KeepNameCharsCounts(s: string, isAlnum: char -> bool, c: char)
    ensures multiset(KeepNameChars(s, isAlnum))[c] == if Kept(c, isAlnum) then multiset(s)[c] else 0
  {
    if |s| > 0 {
      var init := s[..|s| - 1];
      KeepNameCharsCounts(init, isAlnum, c);
      assert s == init + [s[|s| - 1]];
    }
  }

  /** The characters `str.isspace()` accepts, which `str.strip()` removes: tab to
      carriage return, the four information separators, space, next line, no-break
      space, and the Unicode space separators and line and paragraph separators. */
  predicate IsSpace(c: char)
  {
    '\t' <= c <= '\r' || '\U{1C}' <= c <= ' ' || c == '\U{85}' || c == '\U{A0}' || c == '\U{1680}' ||
    '\U{2000}' <= c <= '\U{200A}' || c == '\U{2028}' || c == '\U{2029}' || c == '\U{202F}' ||
    c == '\U{205F}' || c == '\U{3000}'
  }

  function DropLeadingSpace(s: string): (r: string)
    ensures |r| <= |s| && r == s[|s| - |r|..]
    ensures |r| > 0 ==> !IsSpace(r[0])
    ensures forall i :: 0 <= i < |s| - |r| ==> IsSpace(s[i])
  {
    if |s| > 0 && IsSpace(s[0]) then DropLeadingSpace(s[1..]) else s
  }

  function DropTrailingSpace(s: string): (r: string)
    ensures |r| <= |s| && r == s[..|r|]
    ensures |r| > 0 ==> !IsSpace(r[|r| - 1])
    ensures forall i :: |r| <= i < |s| ==> IsSpace(s[i])
  {
    if |s| > 0 && IsSpace(s[|s| - 1]) then DropTrailingSpace(s[..|s| - 1]) else s
  }

  /** `str.strip()`. */
  function Strip(s: string): string
  {
    DropTrailingSpace(DropLeadingSpace(s))
  }

  /** What `strip` keeps: the stretch of the string after its leading spaces,
      where everything cut off on either side is space. */
  lemma StripIsTrim(s: string)
    ensures var i := |s| - |DropLeadingSpace(s)|;
            var r := Strip(s);
            i + |r| <= |s| && r == s[i..i + |r|] &&
            (forall k :: 0 <= k < i ==> IsSpace(s[k])) && (forall k :: i + |r| <= k < |s| ==> IsSpace(s[k]))
  {
    StripSlice(s);
    StripTail(s);
  }

  lemma StripSlice(s: string)
    ensures |s| - |DropLeadingSpace(s)| + |Strip(s)| <= |s|
    ensures Strip(s) == s[|s| - |DropLeadingSpace(s)|..|s| - |DropLeadingSpace(s)| + |Strip(s)|]
  {
    var l := DropLeadingSpace(s);
    var r := DropTrailingSpace(l);
    SliceOfSuffix(s, l, r, |s| - |l|);
  }

  /** A prefix of a suffix is a slice. */
  lemma SliceOfSuffix(s: string, l: string, r: string, i: nat)
    requires i <= |s| && l == s[i..] && |r| <= |l| && r == l[..|r|]
    ensures i + |r| <= |s| && r == s[i..i + |r|]
  {
    forall k | 0 <= k < |r| ensures r[k] == s[i + k] {
      assert r[k] == l[k];
    }
  }

  lemma StripTail(s: string)
    ensures forall k :: |s| - |DropLeadingSpace(s)| + |Strip(s)| <= k < |s| ==> IsSpace(s[k])
  {
    var l := DropLeadingSpace(s);
    var r := DropTrailingSpace(l);
    var i := |s| - |l|;
    forall k | i + |r| <= k < |s|
      ensures IsSpace(s[k])
    {
      assert s[k] == l[k - i];
    }
  }

  /** What `strip` keeps starts and ends with a non-space. */
  lemma StripEnds(s: string)
    ensures |Strip(s)| > 0 ==> !IsSpace(Strip(s)[0]) && !IsSpace(Strip(s)[|Strip(s)| - 1])
  {
    var l := DropLeadingSpace(s);
    var r := DropTrailingSpace(l);
    if |r| > 0 {
      assert r[0] == l[0];
    }
  }

  /** Stripping twice is stripping once. */
  lemma StripIdempotent(s: string)
    ensures Strip(Strip(s)) == Strip(s)
  {
    var r := Strip(s);
    assert DropLeadingSpace(r) == r;
  }

  /** A string made only of kept characters passes the filter unchanged. */
  lemma {:induction false} KeepNameCharsKeepsKept(s: string, isAlnum: char -> bool)
    requires forall i :: 0 <= i < |s| ==> Kept(s[i], isAlnum)
    ensures KeepNameChars(s, isAlnum) == s
  {
    if |s| > 0 {
      KeepNameCharsKeepsKept(s[..|s| - 1], isAlnum);
      assert s == s[..|s| - 1] + [s[|s| - 1]];
    }
  }

  /** The file stem `save_preset` writes to. */
  function SafeName(name: string, isAlnum: char -> bool): (r: string)
    ensures forall i :: 0 <= i < |r| ==> Kept(r[i], isAlnum)
  {
    var kept := KeepNameChars(name, isAlnum);
    StripIsTrim(kept);
    Strip(kept)
  }

  /** A sanitised name keeps only alphanumerics, `-`, `_` and space, and neither
      starts nor ends with a space. */
  lemma SafeNameProperties(name: string, isAlnum: char -> bool)
    ensures var r := SafeName(name, isAlnum);
            (forall i :: 0 <= i < |r| ==> Kept(r[i], isAlnum)) &&
            (|r| > 0 ==> !IsSpace(r[0]) && !IsSpace(r[|r| - 1]))
  {
    StripEnds(KeepNameChars(name, isAlnum));
  }

  /** Sanitising a sanitised name changes nothing. */
  lemma SafeNameIdempotent(name: string, isAlnum: char -> bool)
    ensures SafeName(SafeName(name, isAlnum), isAlnum) == SafeName(name, isAlnum)
  {
    var kept := KeepNameChars(name, isAlnum);
    var r := SafeName(name, isAlnum);
    assert r == Strip(kept);
    KeepNameCharsKeepsKept(r, isAlnum);
    assert KeepNameChars(r, isAlnum) == r;
    StripIdempotent(kept);
  }

  /** `save_preset`: refuse a name that sanitises to nothing, otherwise store the
      preset under the sanitised stem (replacing any file of that name). */
  function SavePreset(saved: map<string, PresetConfig>, preset: PresetConfig, isAlnum: char -> bool)
    : (r: Result<map<string, PresetConfig>, ApiError>)
    ensures r.Err? <==> |SafeName(preset.name, isAlnum)| == 0
    ensures r.Err? ==> r.error == InvalidPresetName
    ensures r.Ok? ==> r.value == saved[SafeName(preset.name, isAlnum) := preset]
  {
    var stem := SafeName(preset.name, isAlnum);
    if |stem| == 0 then Err(InvalidPresetName) else Ok(saved[stem := preset])
  }

  /** A preset built on the defaults, as the built-in table writes them: 3 mm
      uniform bleed and the default marks, sheet fields and settings. */
  function BuiltinConfig(name: string, mode: ImpositionMode, trimW: real, trimH: real, sheetW: real, sheetH: real,
                         gap: real): (p: PresetConfig)
    ensures p.name == name && p.config.mode == mode && p.config.trimWidth == trimW && p.config.trimHeight == trimH
    ensures p.config.sheet.sheetWidth == sheetW && p.config.sheet.sheetHeight == sheetH
    ensures p.config.gapBetweenItems == gap && p.config.autoRotate && p.config.bleed == DefaultBleedConfig()
  {
    var d := DefaultImpositionConfig();
    PresetConfig(name, d.(mode := mode, trimWidth := trimW, trimHeight := trimH, bleed := BleedConfig(3.0, 3.0, 3.0, 3.0, true),
                          sheet := d.sheet.(sheetWidth := sheetW, sheetHeight := sheetH), gapBetweenItems := gap,
                          autoRotate := true))
  }

  /** `BUILTIN_PRESETS`. */
  const BuiltinPresets: map<string, PresetConfig> := map[
    "business_card_sra3" := BuiltinConfig("Business Card 90x55mm on SRA3, 24-up, 3mm bleed", StepAndRepeat,
                                          90.0, 55.0, 320.0, 450.0, 0.0),
    "a5_saddle_sra3" := BuiltinConfig("A5 Saddle Stitch on SRA3, 4-up", BookletSaddleStitch,
                                      148.0, 210.0, 320.0, 450.0, 0.0),
    "a4_cut_stack_sra3" := BuiltinConfig("A4 on SRA3, 2-up, Cut & Stack", CutAndStack,
                                         210.0, 297.0, 320.0, 450.0, 0.0),
    "dl_flyer_sra4" := BuiltinConfig("DL Flyer on SRA4, 4-up with 2mm gap", StepAndRepeat,
                                     99.0, 210.0, 225.0, 320.0, 2.0),
    "a6_postcard_sra3" := BuiltinConfig("A6 Postcard on SRA3, 8-up", StepAndRepeat,
                                        105.0, 148.0, 320.0, 450.0, 0.0)]

  /** `get_preset`: the built-in preset of that id, else the saved file of that
      stem, else not found. */
  function GetPreset(saved: map<string, PresetConfig>, id: string): (r: Result<PresetConfig, ApiError>)
    ensures id in BuiltinPresets ==> r == Ok(BuiltinPresets[id])
    ensures id !in BuiltinPresets && id in saved ==> r == Ok(saved[id])
    ensures r.Err? <==> id !in BuiltinPresets && id !in saved
    ensures r.Err? ==> r.error == PresetNotFound
  {
    if id in BuiltinPresets then Ok(BuiltinPresets[id])
    else if id in saved then Ok(saved[id])
    else Err(PresetNotFound)
  }

  /** A saved preset is found again under its sanitised name, unless that name is a
      built-in id, which always wins; saving changes no other lookup. */
  lemma SaveThenGet(saved: map<string, PresetConfig>, preset: PresetConfig, isAlnum: char -> bool, id: string)
    requires SavePreset(saved, preset, isAlnum).Ok?
    ensures var stem := SafeName(preset.name, isAlnum);
            var after := SavePreset(saved, preset, isAlnum).value;
            GetPreset(after, stem) == Ok(if stem in BuiltinPresets then BuiltinPresets[stem] else preset) &&
            (id != stem ==> GetPreset(after, id) == GetPreset(saved, id))
  {
  }

  /** The built-in ids are all there is to the table, and each can be shadowed by a
      saved preset of the same name only in the saved directory, never in a
      lookup. */
  lemma BuiltinShadowsSaved(saved: map<string, PresetConfig>)
    ensures BuiltinPresets.Keys == {"business_card_sra3", "a5_saddle_sra3", "a4_cut_stack_sra3", "dl_flyer_sra4",
                                    "a6_postcard_sra3"}
    ensures forall id :: id in BuiltinPresets ==> GetPreset(saved, id) == Ok(BuiltinPresets[id])
  {
  }
}
