/**
 * The code view: a cache of source files read line by line, of disassembled functions
 * and of breakpoints, the place the debugger stopped at, and the scroll position of the
 * window over the shown text. `Code.Update` is the view's state machine over the
 * actions the application routes to it.
 */
module CodeView {
  import opened Options
  import opened Numeric
  import opened LineRange
  import Frame
  import Gdbmi
  import BreakpointMi
  import opened Disassemble
  import opened Breakpoint
  import opened SrcFile
  import opened AsmFunc

  /** The view's own actions. */
  datatype CodeAction =
    | FileReadOneLine(file: string, line: string)
    | FileReadEnd(file: string)
    | FileReadFail(file: string, frame: Frame.Frame)
    | AsmFileEnd
    | FilehighlightLine(file: string, highlight: HighlightLine)
    | FilehighlightEnd(file: string)
    | Up(n: usize)
    | Down(n: usize)
    | Left(n: usize)
    | Right(n: usize)

  /** The application's actions, as far as the view tells them apart. */
  datatype AppAction =
    | Tick
    | Render
    | Resize(width: nat, height: nat)
    | SwapHV
    | MiAction(mi: Gdbmi.Action)
    | CodeAct(code: CodeAction)
    | OtherAction

  /** What the view was asked to show: nothing, a source line, or an address in a function. */
  datatype FileNeedShow = ShowNothing | ShowSrc(name: string, line: u64) | ShowAsmFunc(name: string, addr: string)

  /** What can be shown now: a read source file or disassembled function, at a line. */
  datatype Shown = SrcShown(name: string, line: u64) | AsmShown(name: string, line: u64)

  /** The background work the view starts: reading a file, highlighting its lines. */
  datatype Task = ReadFile(name: string, frame: Frame.Frame) | HighlightFile(name: string, lines: seq<string>)

  /** A stop whose source cannot be shown goes to the assembly view when the frame names its function. */
  function AsmFallback(frame: Frame.Frame): (r: Option<AppAction>)
    ensures r.Some? <==> frame.func.Some?
    ensures r.Some? ==> r.value == MiAction(Gdbmi.ShowAsm(frame.func.value, frame.addr, frame))
  {
    match frame.func
    case Some(f) => Some(MiAction(Gdbmi.ShowAsm(f, frame.addr, frame)))
    case None => None
  }

  /** No file is ever read twice. */
  predicate ReadsOnce(ts: seq<Task>)
  {
    forall i, j | 0 <= i < j < |ts| && ts[i].ReadFile? && ts[j].ReadFile? :: ts[i].name != ts[j].name
  }

  // ---------------------------------------------------------------- scrolling

  /** `min` after `max`, with the bounds in order: the value moved into `[lo, hi]`. */
  function Clamp(v: usize, lo: usize, hi: usize): (r: usize)
    requires lo <= hi
    ensures lo <= r <= hi
    ensures lo <= v <= hi ==> r == v
    ensures v < lo ==> r == lo
    ensures v > hi ==> r == hi
  {
    Min(Max(v, lo), hi)
  }

  /**
   * `legalization_vertical_scroll_range(h, n)`: the scroll line (the middle of the window)
   * may go from just below the upper half of a window of height `h` down to where the
   * lower half reaches past the last of `n` lines, and never before the start.
   */
  function VerticalRange(h: usize, n: usize): (r: (usize, usize))
    ensures r.0 == h / 2 + 1 && r.0 <= r.1
    ensures r.1 == Max(r.0, SatAdd(SatSub(n, h / 2 + h % 2), 1))
  {
    var start := SatAdd(h / 2, 1);
    (start, Max(SatAdd(SatSub(n, h / 2 + h % 2), 1), start))
  }

  /** `get_windows_show_file_range(h)`: the window of height `h` whose middle is the scroll line. */
  function WindowRange(v: usize, h: usize): (r: (usize, usize))
    ensures r.0 <= v && r.0 <= r.1 && r.1 - r.0 <= h
    ensures v >= h / 2 ==> r.0 == v - h / 2
    ensures r.0 + h <= USIZE_MAX ==> r.1 == r.0 + h
  {
    var start := SatSub(v, h / 2);
    (start, SatAdd(start, h))
  }

  /**
   * After the vertical scroll is legalized for a window of height `h` over `n` lines, the
   * window never starts above line 1; when the file has at least `h` lines it shows
   * exactly `h` of them and none past the last; when it has fewer it starts at line 1.
   */
  lemma {:induction false} LegalWindowInsideFile(v: usize, h: usize, n: usize)
    requires n + 2 < USIZE_MAX
    ensures var (lo, hi) := VerticalRange(h, n);
      var w := WindowRange(Clamp(v, lo, hi), h);
      && 1 <= w.0
      && (n >= h ==> w.1 - w.0 == h && w.1 <= n + 1)
      && (n < h ==> w.0 == 1)
  {
    var (lo, hi) := VerticalRange(h, n);
    var c := Clamp(v, lo, hi);
    var ceil := h / 2 + h % 2;
    if n >= h {
      assert hi == n - ceil + 1;
    } else {
      assert SatAdd(SatSub(n, ceil), 1) <= lo;
      assert c == lo;
    }
  }

  /** The numbers the scroll tests pin: ranges for (32, 64), (31, 64) and (31, 2). */
  lemma VerticalRangeExamples()
    ensures VerticalRange(32, 64) == (17, 49)
    ensures VerticalRange(31, 64) == (16, 49)
    ensures VerticalRange(31, 2) == (16, 16)
  {
  }

  /**
   * The windows the tests pin: with height 32 over 64 lines a scroll of 0, 20 or 200 is
   * legalized into windows (1, 33), (4, 36) and (33, 65); with height 31, 20 gives (5, 36).
   */
  lemma WindowExamples()
    ensures WindowRange(Clamp(0, 17, 49), 32) == (1, 33)
    ensures WindowRange(Clamp(20, 17, 49), 32) == (4, 36)
    ensures WindowRange(Clamp(200, 17, 49), 32) == (33, 65)
    ensures WindowRange(Clamp(20, 16, 49), 31) == (5, 36)
  {
  }

  /**
   * `legalization_horizontial_scroll_range(width, len)`: the view may scroll right until
   * the longest line, with two columns to spare, ends at the right border.
   */
  function HorizontalRange(width: usize, textLen: usize): (r: (usize, usize))
    ensures r.0 == 0
    ensures textLen + 2 <= USIZE_MAX ==> r.1 == Max(0, textLen + 2 - width)
  {
    (0, SatSub(SatAdd(textLen, 2), width))
  }

  // ---------------------------------------------------------------- breakpoints

  /** The `Breakpoint` arm: the breakpoint is stored under its key, replacing any before it. */
  function StoreBreakpoint(bs: map<string, BreakPointData>, b: BreakPointData): (r: map<string, BreakPointData>)
    ensures GetKey(b) in r && r[GetKey(b)] == b
    ensures forall k | k != GetKey(b) :: (k in r <==> k in bs) && (k in bs ==> r[k] == bs[k])
  {
    bs[GetKey(b) := b]
  }

  /** The `BreakpointDeleted` arm: the breakpoint numbered with `id`'s decimal text is dropped. */
  function DeleteBreakpoint(bs: map<string, BreakPointData>, id: u64): (r: map<string, BreakPointData>)
    ensures DecimalText(id) !in r
    ensures forall k | k != DecimalText(id) :: (k in r <==> k in bs) && (k in bs ==> r[k] == bs[k])
  {
    bs - {DecimalText(id)}
  }

  /** A later announcement of the same breakpoint replaces the earlier one entirely. */
  lemma StoreReplaces(bs: map<string, BreakPointData>, b1: BreakPointData, b2: BreakPointData)
    requires GetKey(b1) == GetKey(b2)
    ensures StoreBreakpoint(StoreBreakpoint(bs, b1), b2) == StoreBreakpoint(bs, b2)
  {
    var l, r := StoreBreakpoint(StoreBreakpoint(bs, b1), b2), StoreBreakpoint(bs, b2);
    assert l.Keys == r.Keys;
  }

  /**
   * Deleting a breakpoint by the id GDB reports for it undoes storing it: what is left is
   * what was there before, less that number.
   */
  lemma DeleteUndoesStore(bs: map<string, BreakPointData>, b: BreakPointData, id: u64)
    requires GetKey(b) == DecimalText(id)
    ensures DeleteBreakpoint(StoreBreakpoint(bs, b), id) == DeleteBreakpoint(bs, id)
  {
    var l, r := DeleteBreakpoint(StoreBreakpoint(bs, b), id), DeleteBreakpoint(bs, id);
    assert l.Keys == r.Keys;
  }

  /** A breakpoint announced with the number GDB later deletes is gone after the deletion. */
  lemma AnnouncedThenDeleted(bs: map<string, BreakPointData>, b: BreakpointMi.BreakPointAction, id: u64)
    requires (match b case Signal(s) => s.number case Multiple(m) => m.number) == DecimalText(id)
    ensures DecimalText(id) !in DeleteBreakpoint(StoreBreakpoint(bs, From(FromMi(b))), id)
    ensures DecimalText(id) in StoreBreakpoint(bs, From(FromMi(b)))
  {
    MiKeyIsNumber(b);
  }

  /**
   * `asm` holds the dump of `f` after the lines it had, every line white, both flags set,
   * and, when `f` has instructions, the sorted table of their addresses.
   */
  ghost predicate Filled(asm: AsmFuncData, lines0: seq<string>, addrs0: seq<(u64, u64)>, f: DisassembleFunction)
    requires |f.insts| < USIZE_MAX
    reads asm
  {
    && asm.lines == lines0 + DumpLines(f)
    && asm.linesHighlight == WhiteLines(asm.lines)
    && asm.readDone && asm.highlightDone
    && asm.addrs == if |f.insts| == 0 then addrs0 else AddrMap(f.insts, 1)
  }

  /**
   * The `ReadAsmFunc` arm on the cached entry: the dump is appended, then the entry is
   * marked read, every line is painted white and the entry is marked highlighted.
   */
  method FillAsmFunc(asm: AsmFuncData, f: DisassembleFunction)
    requires asm.Valid() && |f.insts| < USIZE_MAX
    modifies asm
    ensures asm.Valid() && Filled(asm, old(asm.lines), old(asm.addrs), f)
  {
    asm.AddLines(f);
    asm.SetReadDone();
    asm.AddHighlightLines(f);
    asm.SetHighlightDone();
  }

  /**
   * No cached file of `files0` outside `files`, and no cached function of `funcs0`
   * outside `funcs`, changed.
   */
  twostate predicate EntriesKept(files0: map<string, SrcFileData>, funcs0: map<string, AsmFuncData>,
                                 files: set<string>, funcs: set<string>)
    reads files0.Values, funcs0.Values
  {
    && (forall k | k in files0 && k !in files :: unchanged(files0[k]))
    && (forall k | k in funcs0 && k !in funcs :: unchanged(funcs0[k]))
  }

  /** The cached file a view action may change: the one a file event names. */
  function FilesTouched(c: CodeAction): (r: set<string>)
    ensures r != {} <==> c.FileReadOneLine? || c.FileReadEnd? || c.FilehighlightLine? || c.FilehighlightEnd?
    ensures r != {} ==> r == {c.file}
  {
    match c
    case FileReadOneLine(file, _) => {file}
    case FileReadEnd(file) => {file}
    case FilehighlightLine(file, _) => {file}
    case FilehighlightEnd(file) => {file}
    case _ => {}
  }

  /** The cached function a debugger action may change: the one a disassembly fills. */
  function FuncsTouched(mi: Gdbmi.Action): (r: set<string>)
    ensures r != {} <==> mi.ReadAsmFunc?
    ensures r != {} ==> r == {mi.asmFunc.func}
  {
    match mi
    case ReadAsmFunc(f) => {f.func}
    case _ => {}
  }

  // ---------------------------------------------------------------- the view

  class Code {
    var filesSet: map<string, SrcFileData>
    var readFailFilesSet: set<string>
    var asmFuncSet: map<string, AsmFuncData>
    var breakpointSet: map<string, BreakPointData>
    var fileNeedShow: FileNeedShow
    var verticalScroll: usize
    var horizontalScroll: usize
    var isHorizontal: bool
    /** The reads and highlights started so far, in order. */
    var spawned: seq<Task>

    /**
     * Every cached entry sits under its own key, disassembled functions keep their
     * address tables sorted, a file that failed to read is not cached, and every read
     * started is for a file cached or failed, and for a file not read before.
     */
    ghost predicate Valid()
      reads this, filesSet.Values, asmFuncSet.Values
    {
      FilesKeyed() && AsmKeyed() && ReadsTracked()
    }

    /** Every cached file sits under its own name, and none of them failed to read. */
    ghost predicate FilesKeyed()
      reads this
    {
      forall k | k in filesSet :: filesSet[k].fileName == k && k !in readFailFilesSet
    }

    /** Every cached function sits under its own name and keeps its address table sorted. */
    ghost predicate AsmKeyed()
      reads this, asmFuncSet.Values
    {
      forall k | k in asmFuncSet :: asmFuncSet[k].funcName == k && asmFuncSet[k].Valid()
    }

    /** Every read started is for a file cached or failed, and no file is read twice. */
    ghost predicate ReadsTracked()
      reads this
    {
      && ReadsOnce(spawned)
      && forall i | 0 <= i < |spawned| && spawned[i].ReadFile? ::
           spawned[i].name in filesSet || spawned[i].name in readFailFilesSet
    }

    /** `Code::new`: nothing cached, nothing to show, no scroll. */
    constructor ()
      ensures Valid()
      ensures filesSet == map[] && readFailFilesSet == {} && asmFuncSet == map[] && breakpointSet == map[]
      ensures fileNeedShow == ShowNothing && verticalScroll == 0 && horizontalScroll == 0
      ensures !isHorizontal && spawned == []
    {
      filesSet := map[];
      readFailFilesSet := {};
      asmFuncSet := map[];
      breakpointSet := map[];
      fileNeedShow := ShowNothing;
      verticalScroll := 0;
      horizontalScroll := 0;
      isHorizontal := false;
      spawned := [];
    }

    /** The state a scroll leaves alone. */
    ghost function Stores(): (map<string, SrcFileData>, set<string>, map<string, AsmFuncData>, map<string, BreakPointData>, FileNeedShow, seq<Task>)
      reads this
    {
      (filesSet, readFailFilesSet, asmFuncSet, breakpointSet, fileNeedShow, spawned)
    }

    /** The state a breakpoint announcement leaves alone. */
    ghost function Views(): (map<string, SrcFileData>, set<string>, map<string, AsmFuncData>, FileNeedShow, seq<Task>)
      reads this
    {
      (filesSet, readFailFilesSet, asmFuncSet, fileNeedShow, spawned)
    }

    /** Neither the horizontal scroll nor the layout moved. */
    twostate predicate LayoutKept()
      reads this
    {
      horizontalScroll == old(horizontalScroll) && isHorizontal == old(isHorizontal)
    }

    /** Nothing the view holds changed. */
    twostate predicate Idle()
      reads this, filesSet.Values, asmFuncSet.Values
    {
      Stores() == old(Stores()) && verticalScroll == old(verticalScroll) && LayoutKept()
    }

    /**
     * What each arm of `update` for the debugger's actions does to the view. `Start`, `Out`
     * and `DisassembleAsm` are not for the view and change nothing.
     */
    twostate predicate MiStepped(mi: Gdbmi.Action, new ret: Option<AppAction>)
      reads this, filesSet.Values, asmFuncSet.Values
      requires mi.ReadAsmFunc? ==> |mi.asmFunc.insts| < USIZE_MAX
    {
      match mi
      case Start => ret == None && Idle()
      case Out(_) => ret == None && Idle()
      case DisassembleAsm(_) => ret == None && Idle()
      case Breakpoint(bkpt) =>
        && ret == None
        && breakpointSet == StoreBreakpoint(old(breakpointSet), From(FromMi(bkpt)))
        && Views() == old(Views()) && verticalScroll == old(verticalScroll) && LayoutKept()
      case BreakpointDeleted(id) =>
        && ret == None
        && breakpointSet == DeleteBreakpoint(old(breakpointSet), id)
        && Views() == old(Views()) && verticalScroll == old(verticalScroll) && LayoutKept()
      case ShowFile(file, line, frame) =>
        && Valid() && LayoutKept()
        && (file in old(readFailFilesSet) ==>
              && ret == AsmFallback(frame)
              && Stores() == old(Stores()) && verticalScroll == old(verticalScroll))
        && (file !in old(readFailFilesSet) ==>
              && ret == None
              && fileNeedShow == ShowSrc(file, line)
              && readFailFilesSet == old(readFailFilesSet) && asmFuncSet == old(asmFuncSet)
              && breakpointSet == old(breakpointSet)
              && file in filesSet && StoppedAt(file, old(verticalScroll))
              && (file in old(filesSet) ==> filesSet == old(filesSet) && spawned == old(spawned))
              && (file !in old(filesSet) ==>
                    && filesSet == old(filesSet)[file := filesSet[file]] && fresh(filesSet[file])
                    && filesSet[file].lines == [] && !filesSet[file].readDone
                    && spawned == old(spawned) + [ReadFile(file, frame)]))
      case ShowAsm(func, addr, _) =>
        && Valid() && LayoutKept()
        && fileNeedShow == ShowAsmFunc(func, addr) && func in asmFuncSet
        && (func in old(asmFuncSet) ==> ret == None && asmFuncSet == old(asmFuncSet))
        && (func !in old(asmFuncSet) ==>
              && ret == Some(MiAction(Gdbmi.DisassembleAsm(addr)))
              && asmFuncSet == old(asmFuncSet)[func := asmFuncSet[func]] && fresh(asmFuncSet[func])
              && asmFuncSet[func].lines == [] && asmFuncSet[func].addrs == [] && !asmFuncSet[func].readDone)
        && filesSet == old(filesSet) && readFailFilesSet == old(readFailFilesSet)
        && breakpointSet == old(breakpointSet) && spawned == old(spawned)
        && StoppedAt(func, old(verticalScroll))
      case ReadAsmFunc(f) =>
        && Valid() && LayoutKept()
        && Stores() == old(Stores())
        && (f.func in old(asmFuncSet) ==>
              && ret == Some(CodeAct(AsmFileEnd))
              && Filled(asmFuncSet[f.func], old(asmFuncSet[f.func].lines), old(asmFuncSet[f.func].addrs), f))
        && (f.func !in old(asmFuncSet) ==> ret == None)
        && StoppedAt(f.func, old(verticalScroll))
    }

    /** What each arm of `update` for the view's own actions does to the view. */
    twostate predicate CodeStepped(c: CodeAction, new ret: Option<AppAction>)
      reads this, filesSet.Values, asmFuncSet.Values
    {
      match c
      case Up(n) =>
        && ret == None && verticalScroll == SatSub(old(verticalScroll), n)
        && Stores() == old(Stores()) && LayoutKept()
      case Down(n) =>
        && ret == None && verticalScroll == SatAdd(old(verticalScroll), n)
        && Stores() == old(Stores()) && LayoutKept()
      case Left(n) =>
        && ret == None && horizontalScroll == SatSub(old(horizontalScroll), n)
        && Stores() == old(Stores()) && verticalScroll == old(verticalScroll) && isHorizontal == old(isHorizontal)
      case Right(n) =>
        && ret == None && horizontalScroll == SatAdd(old(horizontalScroll), n)
        && Stores() == old(Stores()) && verticalScroll == old(verticalScroll) && isHorizontal == old(isHorizontal)
      case FileReadOneLine(file, line) =>
        && ret == None && Stores() == old(Stores()) && verticalScroll == old(verticalScroll) && LayoutKept()
        && (file in old(filesSet) ==>
              && filesSet[file].lines == old(filesSet[file].lines) + [line]
              && filesSet[file].linesHighlight == old(filesSet[file].linesHighlight)
              && filesSet[file].readDone == old(filesSet[file].readDone)
              && filesSet[file].highlightDone == old(filesSet[file].highlightDone))
      case FilehighlightLine(file, highlight) =>
        && ret == None && Stores() == old(Stores()) && verticalScroll == old(verticalScroll) && LayoutKept()
        && (file in old(filesSet) ==>
              && filesSet[file].linesHighlight == old(filesSet[file].linesHighlight) + [highlight]
              && filesSet[file].lines == old(filesSet[file].lines)
              && filesSet[file].readDone == old(filesSet[file].readDone)
              && filesSet[file].highlightDone == old(filesSet[file].highlightDone))
      case FilehighlightEnd(file) =>
        && ret == None && Stores() == old(Stores()) && verticalScroll == old(verticalScroll) && LayoutKept()
        && (file in old(filesSet) ==>
              && filesSet[file].highlightDone
              && filesSet[file].lines == old(filesSet[file].lines)
              && filesSet[file].linesHighlight == old(filesSet[file].linesHighlight)
              && filesSet[file].readDone == old(filesSet[file].readDone))
      case FileReadEnd(file) =>
        && ret == None && Valid() && LayoutKept()
        && filesSet == old(filesSet) && readFailFilesSet == old(readFailFilesSet)
        && asmFuncSet == old(asmFuncSet) && breakpointSet == old(breakpointSet) && fileNeedShow == old(fileNeedShow)
        && (file in old(filesSet) ==>
              && filesSet[file].readDone
              && filesSet[file].lines == old(filesSet[file].lines)
              && filesSet[file].linesHighlight == old(filesSet[file].linesHighlight)
              && filesSet[file].highlightDone == old(filesSet[file].highlightDone)
              && spawned == old(spawned) + [HighlightFile(file, filesSet[file].lines)])
        && (file !in old(filesSet) ==> spawned == old(spawned))
        && StoppedAt(file, old(verticalScroll))
      case FileReadFail(file, frame) =>
        && ret == AsmFallback(frame) && LayoutKept()
        && filesSet == old(filesSet) - {file} && readFailFilesSet == old(readFailFilesSet) + {file}
        && fileNeedShow == ShowNothing
        && asmFuncSet == old(asmFuncSet) && breakpointSet == old(breakpointSet) && spawned == old(spawned)
        && verticalScroll == old(verticalScroll)
      case AsmFileEnd => ret == None && Idle()
    }

    /**
     * `get_file_need_show_return_file`: a source file when it is cached and read to the
     * end, at the line asked for; a function when it is cached, disassembled and has an
     * instruction at the address asked for, at that instruction's line; otherwise nothing.
     */
    function Target(): (r: Option<Shown>)
      reads this, filesSet.Values, asmFuncSet.Values
      requires Valid()
      ensures fileNeedShow.ShowNothing? ==> r.None?
      ensures fileNeedShow.ShowSrc? ==>
        (r.Some? <==> fileNeedShow.name in filesSet && filesSet[fileNeedShow.name].readDone)
      ensures fileNeedShow.ShowSrc? && r.Some? ==> r.value == SrcShown(fileNeedShow.name, fileNeedShow.line)
      ensures fileNeedShow.ShowAsmFunc? ==>
        (r.Some? <==>
          && fileNeedShow.name in asmFuncSet && asmFuncSet[fileNeedShow.name].readDone
          && LineId(asmFuncSet[fileNeedShow.name].addrs, fileNeedShow.addr).Some?)
      ensures fileNeedShow.ShowAsmFunc? && r.Some? ==>
        r.value.line == LineId(asmFuncSet[fileNeedShow.name].addrs, fileNeedShow.addr).value
      ensures fileNeedShow.ShowAsmFunc? && r.Some? ==>
        && r.value.AsmShown? && r.value.name == fileNeedShow.name
        && fileNeedShow.name in asmFuncSet && asmFuncSet[fileNeedShow.name].readDone
        && ParseHexAddr(fileNeedShow.addr).Some?
        && exists k | 0 <= k < |asmFuncSet[fileNeedShow.name].addrs| ::
             asmFuncSet[fileNeedShow.name].addrs[k] == (ParseHexAddr(fileNeedShow.addr).value, r.value.line)
    {
      match fileNeedShow
      case ShowNothing => None
      case ShowSrc(name, line) =>
        if name in filesSet && filesSet[name].readDone then Some(SrcShown(name, line)) else None
      case ShowAsmFunc(name, addr) =>
        if name in asmFuncSet && asmFuncSet[name].readDone then
          match asmFuncSet[name].GetLineId(addr)
          case Some(id) => Some(AsmShown(name, id))
          case None => None
        else None
    }

    /** `set_vertical_to_stop_point(name)` has run: the scroll is at the stop line when `name` is shown. */
    ghost predicate StoppedAt(name: string, before: usize)
      reads this, filesSet.Values, asmFuncSet.Values
      requires Valid()
    {
      verticalScroll == match Target() case Some(s) => if s.name == name then s.line else before case None => before
    }

    function GetWindowsShowFileRange(h: usize): (r: (usize, usize))
      reads this
      ensures r == WindowRange(verticalScroll, h)
    {
      WindowRange(verticalScroll, h)
    }

    method FileDown(n: usize)
      modifies this
      ensures verticalScroll == SatAdd(old(verticalScroll), n)
      ensures Stores() == old(Stores()) && horizontalScroll == old(horizontalScroll) && isHorizontal == old(isHorizontal)
    {
      verticalScroll := SatAdd(verticalScroll, n);
    }

    method FileUp(n: usize)
      modifies this
      ensures verticalScroll == SatSub(old(verticalScroll), n)
      ensures Stores() == old(Stores()) && horizontalScroll == old(horizontalScroll) && isHorizontal == old(isHorizontal)
    {
      verticalScroll := SatSub(verticalScroll, n);
    }

    method FileLeft(n: usize)
      modifies this
      ensures horizontalScroll == SatSub(old(horizontalScroll), n)
      ensures Stores() == old(Stores()) && verticalScroll == old(verticalScroll) && isHorizontal == old(isHorizontal)
    {
      horizontalScroll := SatSub(horizontalScroll, n);
    }

    method FileRight(n: usize)
      modifies this
      ensures horizontalScroll == SatAdd(old(horizontalScroll), n)
      ensures Stores() == old(Stores()) && verticalScroll == old(verticalScroll) && isHorizontal == old(isHorizontal)
    {
      horizontalScroll := SatAdd(horizontalScroll, n);
    }

    method LegalizationVerticalScrollRange(h: usize, n: usize) returns (r: (usize, usize))
      modifies this
      ensures r == VerticalRange(h, n)
      ensures verticalScroll == Clamp(old(verticalScroll), r.0, r.1)
      ensures Stores() == old(Stores()) && horizontalScroll == old(horizontalScroll) && isHorizontal == old(isHorizontal)
    {
      r := VerticalRange(h, n);
      verticalScroll := Max(verticalScroll, r.0);
      verticalScroll := Min(verticalScroll, r.1);
    }

    method LegalizationHorizontalScrollRange(width: usize, textLen: usize) returns (r: (usize, usize))
      modifies this
      ensures r == HorizontalRange(width, textLen)
      ensures horizontalScroll == Clamp(old(horizontalScroll), r.0, r.1)
      ensures Stores() == old(Stores()) && verticalScroll == old(verticalScroll) && isHorizontal == old(isHorizontal)
    {
      r := HorizontalRange(width, textLen);
      horizontalScroll := Max(horizontalScroll, r.0);
      horizontalScroll := Min(horizontalScroll, r.1);
    }

    /** `set_vertical_to_stop_point`. */
    method SetVerticalToStopPoint(name: string)
      requires Valid()
      modifies this
      ensures Valid() && StoppedAt(name, old(verticalScroll))
      ensures Stores() == old(Stores()) && horizontalScroll == old(horizontalScroll) && isHorizontal == old(isHorizontal)
    {
      var t := Target();
      if t.Some? && t.value.name == name {
        verticalScroll := t.value.line;
      }
    }

    /**
     * `show_file`: for a file that failed to read, the stop is shown as assembly when the
     * frame names its function, and nothing else changes; otherwise the file is what to
     * show, and its read is started unless it is already cached, so no file is read twice.
     */
    method ShowFile(file: string, line: u64, frame: Frame.Frame) returns (ret: Option<AppAction>)
      requires Valid()
      modifies this
      ensures Valid()
      ensures file in old(readFailFilesSet) ==>
        && ret == (match frame.func case Some(f) => Some(MiAction(Gdbmi.ShowAsm(f, frame.addr, frame))) case None => None)
        && Stores() == old(Stores()) && verticalScroll == old(verticalScroll)
      ensures file !in old(readFailFilesSet) ==>
        && ret == None
        && fileNeedShow == ShowSrc(file, line)
        && readFailFilesSet == old(readFailFilesSet) && asmFuncSet == old(asmFuncSet) && breakpointSet == old(breakpointSet)
        && file in filesSet && StoppedAt(file, old(verticalScroll))
      ensures file !in old(readFailFilesSet) && file in old(filesSet) ==>
        filesSet == old(filesSet) && spawned == old(spawned)
      ensures file !in old(readFailFilesSet) && file !in old(filesSet) ==>
        && filesSet == old(filesSet)[file := filesSet[file]] && fresh(filesSet[file])
        && filesSet[file].lines == [] && !filesSet[file].readDone
        && spawned == old(spawned) + [ReadFile(file, frame)]
      ensures horizontalScroll == old(horizontalScroll) && isHorizontal == old(isHorizontal)
      ensures MiStepped(Gdbmi.ShowFile(file, line, frame), ret)
      ensures EntriesKept(old(filesSet), old(asmFuncSet), {}, {})
    {
      ret := None;
      if file in readFailFilesSet {
        if frame.func.Some? {
          ret := Some(MiAction(Gdbmi.ShowAsm(frame.func.value, frame.addr, frame)));
        }
      } else {
        fileNeedShow := ShowSrc(file, line);
        if file !in filesSet {
          var data := new SrcFileData(file);
          filesSet := filesSet[data.GetKey() := data];
          spawned := spawned + [ReadFile(file, frame)];
        }
        SetVerticalToStopPoint(file);
      }
    }

    /** `FileReadOneLine`: the line is appended to a cached file; an unknown file changes nothing. */
    method FileReadOneLine(file: string, line: string)
      requires Valid()
      modifies filesSet.Values
      ensures Valid()
      ensures file in filesSet ==> filesSet[file].lines == old(filesSet[file].lines) + [line]
      ensures forall k | k in filesSet && k != file :: unchanged(filesSet[k])
      ensures file in filesSet ==>
        && filesSet[file].linesHighlight == old(filesSet[file].linesHighlight)
        && filesSet[file].readDone == old(filesSet[file].readDone)
        && filesSet[file].highlightDone == old(filesSet[file].highlightDone)
      ensures file !in filesSet ==> forall k | k in filesSet :: unchanged(filesSet[k])
    {
      if file in filesSet {
        filesSet[file].AddLine(line);
      }
    }

    /** `FilehighlightLine`: the highlighted line is appended to a cached file; an unknown file changes nothing. */
    method FilehighlightLine(file: string, highlight: HighlightLine)
      requires Valid()
      modifies filesSet.Values
      ensures Valid()
      ensures file in filesSet ==> filesSet[file].linesHighlight == old(filesSet[file].linesHighlight) + [highlight]
      ensures forall k | k in filesSet && k != file :: unchanged(filesSet[k])
      ensures file in filesSet ==>
        && filesSet[file].lines == old(filesSet[file].lines)
        && filesSet[file].readDone == old(filesSet[file].readDone)
        && filesSet[file].highlightDone == old(filesSet[file].highlightDone)
      ensures file !in filesSet ==> forall k | k in filesSet :: unchanged(filesSet[k])
    {
      if file in filesSet {
        filesSet[file].AddHighlightLine(highlight);
      }
    }

    /** `FilehighlightEnd`: a cached file is marked highlighted. */
    method FilehighlightEnd(file: string)
      requires Valid()
      modifies filesSet.Values
      ensures Valid()
      ensures file in filesSet ==>
        && filesSet[file].highlightDone
        && filesSet[file].lines == old(filesSet[file].lines)
        && filesSet[file].linesHighlight == old(filesSet[file].linesHighlight)
        && filesSet[file].readDone == old(filesSet[file].readDone)
      ensures forall k | k in filesSet && k != file :: unchanged(filesSet[k])
      ensures file !in filesSet ==> forall k | k in filesSet :: unchanged(filesSet[k])
    {
      if file in filesSet {
        filesSet[file].SetHighlightDone();
      }
    }

    /**
     * `FileReadEnd`: a cached file is marked read and its highlighting is started with the
     * lines read; then the view scrolls to the stop line if the file is the one shown.
     */
    method FileReadEnd(file: string)
      requires Valid()
      modifies this, filesSet.Values
      ensures Valid()
      ensures filesSet == old(filesSet) && readFailFilesSet == old(readFailFilesSet)
      ensures asmFuncSet == old(asmFuncSet) && breakpointSet == old(breakpointSet) && fileNeedShow == old(fileNeedShow)
      ensures file in filesSet ==>
        && filesSet[file].readDone
        && filesSet[file].lines == old(filesSet[file].lines)
        && filesSet[file].linesHighlight == old(filesSet[file].linesHighlight)
        && filesSet[file].highlightDone == old(filesSet[file].highlightDone)
        && spawned == old(spawned) + [HighlightFile(file, filesSet[file].lines)]
      ensures file !in filesSet ==> spawned == old(spawned)
      ensures forall k | k in filesSet && k != file :: unchanged(filesSet[k])
      ensures StoppedAt(file, old(verticalScroll))
      ensures horizontalScroll == old(horizontalScroll) && isHorizontal == old(isHorizontal)
    {
      if file in filesSet {
        var data := filesSet[file];
        data.SetReadDone();
        spawned := spawned + [HighlightFile(file, data.lines)];
      }
      SetVerticalToStopPoint(file);
    }

    /**
     * `FileReadFail`: the file leaves the cache for good, nothing is to be shown, and the
     * stop is shown as assembly instead when the frame names its function.
     */
    method FileReadFail(file: string, frame: Frame.Frame) returns (ret: Option<AppAction>)
      requires Valid()
      modifies this
      ensures Valid()
      ensures filesSet == old(filesSet) - {file} && readFailFilesSet == old(readFailFilesSet) + {file}
      ensures fileNeedShow == ShowNothing
      ensures ret == (match frame.func case Some(f) => Some(MiAction(Gdbmi.ShowAsm(f, frame.addr, frame))) case None => None)
      ensures asmFuncSet == old(asmFuncSet) && breakpointSet == old(breakpointSet) && spawned == old(spawned)
      ensures verticalScroll == old(verticalScroll) && horizontalScroll == old(horizontalScroll) && isHorizontal == old(isHorizontal)
    {
      filesSet := filesSet - {file};
      readFailFilesSet := readFailFilesSet + {file};
      fileNeedShow := ShowNothing;
      ret := None;
      if frame.func.Some? {
        ret := Some(MiAction(Gdbmi.ShowAsm(frame.func.value, frame.addr, frame)));
      }
    }

    /**
     * `ShowAsm(func, addr, _)`: the address in the function is what to show; only a
     * function not cached yet is entered, empty, and its disassembly asked for.
     */
    method ShowAsm(func: string, addr: string) returns (ret: Option<AppAction>)
      requires Valid()
      modifies this
      ensures Valid()
      ensures fileNeedShow == ShowAsmFunc(func, addr) && func in asmFuncSet
      ensures func in old(asmFuncSet) ==> ret == None && asmFuncSet == old(asmFuncSet)
      ensures func !in old(asmFuncSet) ==>
        && ret == Some(MiAction(Gdbmi.DisassembleAsm(addr)))
        && asmFuncSet == old(asmFuncSet)[func := asmFuncSet[func]] && fresh(asmFuncSet[func])
        && asmFuncSet[func].lines == [] && asmFuncSet[func].addrs == [] && !asmFuncSet[func].readDone
      ensures filesSet == old(filesSet) && readFailFilesSet == old(readFailFilesSet)
      ensures breakpointSet == old(breakpointSet) && spawned == old(spawned)
      ensures StoppedAt(func, old(verticalScroll))
      ensures horizontalScroll == old(horizontalScroll) && isHorizontal == old(isHorizontal)
      ensures forall frame :: MiStepped(Gdbmi.ShowAsm(func, addr, frame), ret)
      ensures EntriesKept(old(filesSet), old(asmFuncSet), {}, {})
    {
      fileNeedShow := ShowAsmFunc(func, addr);
      ret := None;
      if func !in asmFuncSet {
        var data := new AsmFuncData(func);
        asmFuncSet := asmFuncSet[data.GetKey() := data];
        ret := Some(MiAction(Gdbmi.DisassembleAsm(addr)));
      }
      SetVerticalToStopPoint(func);
    }

    /**
     * The `entry(..).and_modify(..)` of `ReadAsmFunc`: a cached function is filled with its
     * dump and the view is told the dump has ended; a function not asked for changes nothing.
     */
    method ModifyAsmEntry(f: DisassembleFunction) returns (ret: Option<AppAction>)
      requires Valid() && |f.insts| < USIZE_MAX
      modifies asmFuncSet.Values
      ensures Valid()
      ensures f.func in asmFuncSet ==>
        ret == Some(CodeAct(AsmFileEnd)) && Filled(asmFuncSet[f.func], old(asmFuncSet[f.func].lines), old(asmFuncSet[f.func].addrs), f)
      ensures f.func !in asmFuncSet ==> ret == None
      ensures forall k | k in asmFuncSet && k != f.func :: unchanged(asmFuncSet[k])
    {
      ret := None;
      if f.func in asmFuncSet {
        FillAsmFunc(asmFuncSet[f.func], f);
        ret := Some(CodeAct(AsmFileEnd));
      }
    }

    /**
     * `ReadAsmFunc`: a cached function gets its dump appended, is marked read, gets every
     * line white and is marked highlighted, and the view is told the dump has ended; a
     * function not asked for changes nothing. Then the view scrolls to the stop line if the
     * function is the one shown.
     */
    method ReadAsmFunc(f: DisassembleFunction) returns (ret: Option<AppAction>)
      requires Valid() && |f.insts| < USIZE_MAX
      modifies this, asmFuncSet.Values
      ensures Valid()
      ensures Stores() == old(Stores())
      ensures f.func in asmFuncSet ==>
        ret == Some(CodeAct(AsmFileEnd)) && Filled(asmFuncSet[f.func], old(asmFuncSet[f.func].lines), old(asmFuncSet[f.func].addrs), f)
      ensures f.func !in asmFuncSet ==> ret == None
      ensures forall k | k in asmFuncSet && k != f.func :: unchanged(asmFuncSet[k])
      ensures StoppedAt(f.func, old(verticalScroll))
      ensures horizontalScroll == old(horizontalScroll) && isHorizontal == old(isHorizontal)
      ensures MiStepped(Gdbmi.ReadAsmFunc(f), ret)
      ensures EntriesKept(old(filesSet), old(asmFuncSet), {}, {f.func})
    {
      ret := ModifyAsmEntry(f);
      SetVerticalToStopPoint(f.func);
    }

    /**
     * `update`: the view's state machine. Breakpoints are stored and deleted by key,
     * scrolling saturates, a function is disassembled only the first time it is asked
     * for, file events reach only the file they name, and the invariant holds throughout,
     * so no file is ever read twice.
     */
    method Update(action: AppAction) returns (ret: Option<AppAction>)
      requires Valid()
      requires action.MiAction? && action.mi.ReadAsmFunc? ==> |action.mi.asmFunc.insts| < USIZE_MAX
      modifies this, filesSet.Values, asmFuncSet.Values
      ensures Valid()
      ensures old(spawned) <= spawned
      ensures isHorizontal == (if action.SwapHV? then !old(isHorizontal) else old(isHorizontal))
      ensures action.MiAction? ==> MiStepped(action.mi, ret)
      ensures action.CodeAct? ==> CodeStepped(action.code, ret)
      ensures EntriesKept(old(filesSet), old(asmFuncSet),
                          if action.CodeAct? then FilesTouched(action.code) else {},
                          if action.MiAction? then FuncsTouched(action.mi) else {})
      ensures action.SwapHV? ==>
        && ret == None && isHorizontal == !old(isHorizontal)
        && Stores() == old(Stores()) && verticalScroll == old(verticalScroll)
        && horizontalScroll == old(horizontalScroll)
      ensures action.Tick? || action.Render? || action.Resize? || action.OtherAction? ==> ret == None && Idle()
      ensures ret.Some? ==>
        || (action.MiAction? && action.mi.ShowAsm? && ret.value == MiAction(Gdbmi.DisassembleAsm(action.mi.addr)))
        || (action.MiAction? && action.mi.ReadAsmFunc? && ret.value == CodeAct(AsmFileEnd))
        || (action.MiAction? && action.mi.ShowFile? && ret.value.MiAction? && ret.value.mi.ShowAsm?)
        || (action.CodeAct? && action.code.FileReadFail? && ret.value.MiAction? && ret.value.mi.ShowAsm?)
    {
      ret := None;
      match action {
        case SwapHV => isHorizontal := !isHorizontal;
        case CodeAct(c) => ret := UpdateCode(c);
        case MiAction(mi) => ret := UpdateMi(mi);
        case _ =>
      }
    }

    /** The arms of `update` for the debugger's actions. */
    method UpdateMi(mi: Gdbmi.Action) returns (ret: Option<AppAction>)
      requires Valid()
      requires mi.ReadAsmFunc? ==> |mi.asmFunc.insts| < USIZE_MAX
      modifies this, asmFuncSet.Values
      ensures Valid()
      ensures old(spawned) <= spawned && isHorizontal == old(isHorizontal)
      ensures MiStepped(mi, ret)
      ensures EntriesKept(old(filesSet), old(asmFuncSet), {}, FuncsTouched(mi))
      ensures ret.Some? ==>
        || (mi.ShowAsm? && ret.value == MiAction(Gdbmi.DisassembleAsm(mi.addr)))
        || (mi.ReadAsmFunc? && ret.value == CodeAct(AsmFileEnd))
        || (mi.ShowFile? && ret.value.MiAction? && ret.value.mi.ShowAsm?)
    {
      ret := None;
      match mi {
        case ShowFile(file, line, frame) => ret := ShowFile(file, line, frame);
        case Breakpoint(bkpt) => breakpointSet := StoreBreakpoint(breakpointSet, From(FromMi(bkpt)));
        case BreakpointDeleted(id) => breakpointSet := DeleteBreakpoint(breakpointSet, id);
        case ReadAsmFunc(f) => ret := ReadAsmFunc(f);
        case ShowAsm(func, addr, _) => ret := ShowAsm(func, addr);
        case _ =>
      }
    }

    /** The arms of `update` for the view's own actions. */
    method UpdateCode(c: CodeAction) returns (ret: Option<AppAction>)
      requires Valid()
      modifies this, filesSet.Values
      ensures Valid()
      ensures old(spawned) <= spawned && isHorizontal == old(isHorizontal) && breakpointSet == old(breakpointSet)
      ensures CodeStepped(c, ret)
      ensures EntriesKept(old(filesSet), old(asmFuncSet), FilesTouched(c), {})
      ensures ret.Some? ==> c.FileReadFail? && ret.value.MiAction? && ret.value.mi.ShowAsm?
    {
      ret := None;
      match c {
        case Up(n) => FileUp(n);
        case Down(n) => FileDown(n);
        case Left(n) => FileLeft(n);
        case Right(n) => FileRight(n);
        case FileReadOneLine(file, line) => FileReadOneLine(file, line);
        case FileReadEnd(file) => FileReadEnd(file);
        case FileReadFail(file, frame) => ret := FileReadFail(file, frame);
        case FilehighlightLine(file, highlight) => FilehighlightLine(file, highlight);
        case FilehighlightEnd(file) => FilehighlightEnd(file);
        case AsmFileEnd =>
      }
    }
  }
}
