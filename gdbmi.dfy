/**
 * The MI side of the front-end: the reader that cuts GDB's MI output into lines and turns
 * each line into actions for the other components, the routing of a stop location to a
 * source or an assembly view, and the command that asks GDB for a disassembly.
 */
module Gdbmi {
  import opened Options
  import opened Numeric
  import opened Token
  import opened Frame
  import opened BreakpointMi
  import opened Disassemble

  /** The messages the MI component sends to the rest of the application. */
  datatype Action =
    | Start
    | Out(text: string)
    | ShowFile(file: string, line: u64, frame: Frame)
    | ShowAsm(func: string, addr: string, frame: Frame)
    | DisassembleAsm(addr: string)
    | ReadAsmFunc(asmFunc: DisassembleFunction)
    | Breakpoint(bkpt: BreakPointAction)
    | BreakpointDeleted(id: u64)

  // ---------------------------------------------------------------- routing a frame

  /** `show_asm`: a frame can be shown as assembly when it names its function. */
  function ShowAsmOf(frame: Frame): (r: Option<(string, string)>)
    ensures r.Some? <==> frame.func.Some?
    ensures r.Some? ==> r.value.0 == frame.func.value && r.value.1 == frame.addr
  {
    match frame.func
    case Some(func) => Some((func, frame.addr))
    case None => None
  }

  /** `show_file`: a frame can be shown as source when it has both a file and a line. */
  function ShowFileOf(frame: Frame): (r: Option<(string, u64)>)
    ensures r.Some? <==> frame.fullname.Some? && frame.line.Some?
    ensures r.Some? ==> r.value.0 == frame.fullname.value && r.value.1 == frame.line.value
  {
    match (frame.fullname, frame.line)
    case (Some(file), Some(line)) => Some((file, line))
    case _ => None
  }

  /** The last result of the list that converts to a frame, if any does. */
  function LastFrame(rs: seq<ResultType>): Option<Frame>
  {
    if |rs| == 0 then None
    else if FrameSpec(rs[|rs| - 1]).Ok? then Some(FrameSpec(rs[|rs| - 1]).value)
    else LastFrame(rs[..|rs| - 1])
  }

  /**
   * The stop location a record reports: only an exec-async `stopped` record and a
   * notify-async `thread-selected` record report one, and then the last `frame` result does.
   */
  function GetFrameSpec(a: OutOfBandRecord): Option<Frame>
  {
    match a.record
    case ExecAsync(out) => if out.asyncClass == Stopped then LastFrame(out.results) else None
    case NotifyAsync(out) => if out.asyncClass == ThreadSelected then LastFrame(out.results) else None
  }

  /** `get_frame`: every result that converts to a frame overwrites the answer. */
  method GetFrame(a: OutOfBandRecord) returns (ret: Option<Frame>)
    ensures ret == GetFrameSpec(a)
  {
    ret := None;
    var out := a.record.output;
    if (a.record.ExecAsync? && out.asyncClass == Stopped) || (a.record.NotifyAsync? && out.asyncClass == ThreadSelected) {
      var rs := out.results;
      for i := 0 to |rs|
        invariant ret == LastFrame(rs[..i])
      {
        assert rs[..i + 1][..i] == rs[..i];
        var f := TryFrom(rs[i]);
        if f.Ok? {
          ret := Some(f.value);
        }
      }
      assert rs[..|rs|] == rs;
    }
  }

  /** A later frame result replaces an earlier one; results that are not frames are passed over. */
  lemma LastFrameSnoc(rs: seq<ResultType>, x: ResultType)
    ensures LastFrame(rs + [x]) == if FrameSpec(x).Ok? then Some(FrameSpec(x).value) else LastFrame(rs)
  {
    assert (rs + [x])[..|rs|] == rs;
  }

  /**
   * The frame found is the conversion of a result after which no result converts; no
   * frame is found exactly when no result converts to one.
   */
  lemma {:induction false} LastFrameIsLast(rs: seq<ResultType>)
    ensures LastFrame(rs).Some? ==>
      exists j | 0 <= j < |rs| :: FrameSpec(rs[j]) == Ok(LastFrame(rs).value) && forall k | j < k < |rs| :: FrameSpec(rs[k]).Err?
    ensures LastFrame(rs).None? <==> forall k | 0 <= k < |rs| :: FrameSpec(rs[k]).Err?
    decreases |rs|
  {
    if |rs| > 0 {
      var init := rs[..|rs| - 1];
      LastFrameIsLast(init);
      assert forall k | 0 <= k < |init| :: init[k] == rs[k];
      if FrameSpec(rs[|rs| - 1]).Ok? {
        assert FrameSpec(rs[|rs| - 1]) == Ok(LastFrame(rs).value);
      }
    }
  }

  /** The frame-related action of a record: as source if possible, else as assembly, else none. */
  function FrameActions(a: OutOfBandRecord): seq<Action>
  {
    match GetFrameSpec(a)
    case None => []
    case Some(frame) =>
      match ShowFileOf(frame)
      case Some((file, line)) => [ShowFile(file, line, frame)]
      case None =>
        match ShowAsmOf(frame)
        case Some((func, addr)) => [ShowAsm(func, addr, frame)]
        case None => []
  }

  /**
   * A reported frame is routed to source when it has file and line, to assembly only
   * otherwise and only when it names its function; never to both.
   */
  lemma FrameRouting(a: OutOfBandRecord)
    ensures |FrameActions(a)| <= 1
    ensures FrameActions(a) != [] <==> GetFrameSpec(a).Some? && (ShowFileOf(GetFrameSpec(a).value).Some? || GetFrameSpec(a).value.func.Some?)
    ensures FrameActions(a) != [] && FrameActions(a)[0].ShowFile? <==>
      GetFrameSpec(a).Some? && ShowFileOf(GetFrameSpec(a).value).Some?
    ensures FrameActions(a) != [] && FrameActions(a)[0].ShowAsm? <==>
      GetFrameSpec(a).Some? && ShowFileOf(GetFrameSpec(a).value).None? && GetFrameSpec(a).value.func.Some?
    ensures FrameActions(a) != [] ==> FrameActions(a)[0].frame == GetFrameSpec(a).value
  {
  }

  /** The `frame` tuple of a stop in `main`, a function without debug information. */
  const NoSourceFrame := [ResultType("addr", Const("0x0000555555581c20")), ResultType("func", Const("main")),
                          ResultType("args", List(EmptyList)), ResultType("arch", Const("i386:x86-64"))]

  /** The results of `*stopped` at a temporary breakpoint in that function. */
  const NoSourceStop := [ResultType("reason", Const("breakpoint-hit")), ResultType("disp", Const("del")),
                         ResultType("bkptno", Const("1")), ResultType("frame", Tuple(TupleResults(NoSourceFrame))),
                         ResultType("thread-id", Const("1")), ResultType("stopped-threads", Const("all")),
                         ResultType("core", Const("5"))]

  lemma NoSourceFrameOf()
    ensures FrameOf(NoSourceFrame) == Frame("0x0000555555581c20", Some("main"), None, None)
  {
    var items := NoSourceFrame;
    FrameDefaults([]);
    FrameOfSnoc([], items[0]);
    assert [] + [items[0]] == items[..1];
    FrameOfSnoc(items[..1], items[1]);
    assert items[..1] + [items[1]] == items[..2];
    FrameOfSnoc(items[..2], items[2]);
    assert items[..2] + [items[2]] == items[..3];
    FrameOfSnoc(items[..3], items[3]);
    assert items[..3] + [items[3]] == items;
  }

  /**
   * A stop at a breakpoint in a function without debug information: the frame names
   * `main` but no file, so the stop is routed to the assembly view of `main`.
   */
  lemma StopWithoutSourceShowsAsm()
    ensures FrameActions(AsyncRecord(ExecAsync(AsyncOutput(Stopped, NoSourceStop, [])))) ==
      [ShowAsm("main", "0x0000555555581c20", Frame("0x0000555555581c20", Some("main"), None, None))]
  {
    var rs := NoSourceStop;
    var f := Frame("0x0000555555581c20", Some("main"), None, None);
    NoSourceFrameOf();
    assert FrameSpec(rs[3]) == Ok(f);
    assert LastFrame(rs[..4]) == Some(f) by {
      assert rs[..4][..3] == rs[..3];
    }
    assert forall k | 0 <= k < |rs[4..]| :: rs[4..][k].variable != "frame";
    LastFrameTail(rs[..4], rs[4..]);
    assert rs[..4] + rs[4..] == rs;
  }

  /** Results that do not convert to a frame, after the last frame, leave it in place. */
  lemma {:induction false} LastFrameTail(rs: seq<ResultType>, tail: seq<ResultType>)
    requires forall k | 0 <= k < |tail| :: FrameSpec(tail[k]).Err?
    ensures LastFrame(rs + tail) == LastFrame(rs)
    decreases |tail|
  {
    if |tail| > 0 {
      var init := tail[..|tail| - 1];
      LastFrameTail(rs, init);
      assert rs + tail == (rs + init) + [tail[|tail| - 1]];
      LastFrameSnoc(rs + init, tail[|tail| - 1]);
    } else {
      assert rs + tail == rs;
    }
  }

  // ---------------------------------------------------------------- dispatching a line

  function OptionList<T>(o: Option<T>): (r: seq<T>)
    ensures |r| <= 1 && (r == [] <==> o.None?) && (o.Some? ==> r == [o.value])
  {
    match o case Some(x) => [x] case None => []
  }

  function BreakpointActions(a: OutOfBandRecord): seq<Action>
  {
    match ShowBkptSpec(a) case Some(b) => [Breakpoint(b)] case None => []
  }

  function DeletedActions(a: OutOfBandRecord): seq<Action>
  {
    match DeletedSpec(a) case Some(id) => [Action.BreakpointDeleted(id)] case None => []
  }

  /**
   * The actions one parsed line gives: for an out-of-band record its frame action, then
   * the breakpoint it announces, then the breakpoint it deletes; for a result record the
   * disassembled function it carries; nothing for a line that does not parse.
   */
  function RecordActions(parsed: Option<OutputOneline>): seq<Action>
  {
    match parsed
    case None => []
    case Some(OutOfBand(a)) => FrameActions(a) + BreakpointActions(a) + DeletedActions(a)
    case Some(ResultLine(r)) => match DisassembleSpec(r) case Some(f) => [ReadAsmFunc(f)] case None => []
  }

  function LineActions(line: string): seq<Action>
  {
    RecordActions(ParseOutputOneline(line))
  }

  /** The actions of a batch of lines: each line's, in line order. */
  function BatchActions(lines: seq<string>): seq<Action>
  {
    if |lines| == 0 then [] else BatchActions(lines[..|lines| - 1]) + LineActions(lines[|lines| - 1])
  }

  /** The kind order within one line: frame, then breakpoint, then deletion; a disassembly alone. */
  function Rank(x: Action): nat
  {
    match x
    case ShowFile(_, _, _) => 0
    case ShowAsm(_, _, _) => 0
    case Breakpoint(_) => 1
    case BreakpointDeleted(_) => 2
    case _ => 3
  }

  /** The per-line dispatch of the reader. */
  method DispatchLine(line: string) returns (actions: seq<Action>)
    ensures actions == LineActions(line)
  {
    actions := [];
    var parsed := ParseOutputOneline(line);
    match parsed {
      case Some(OutOfBand(a)) =>
        var frame := GetFrame(a);
        if frame.Some? {
          var file := ShowFileOf(frame.value);
          if file.Some? {
            actions := actions + [ShowFile(file.value.0, file.value.1, frame.value)];
          } else {
            var asm := ShowAsmOf(frame.value);
            if asm.Some? {
              actions := actions + [ShowAsm(asm.value.0, asm.value.1, frame.value)];
            }
          }
        }
        var bkpt := ShowBkpt(a);
        if bkpt.Some? {
          actions := actions + [Breakpoint(bkpt.value)];
        }
        var id := ShowBreakpointDeleted(a);
        if id.Some? {
          actions := actions + [Action.BreakpointDeleted(id.value)];
        }
      case Some(ResultLine(r)) =>
        var asmFunc := GetDisassembleFunction(r);
        if asmFunc.Some? {
          actions := actions + [ReadAsmFunc(asmFunc.value)];
        }
      case None =>
    }
  }

  /** The dispatch over all lines a read completed. */
  method DispatchLines(lines: seq<string>) returns (actions: seq<Action>)
    ensures actions == BatchActions(lines)
  {
    actions := [];
    for i := 0 to |lines|
      invariant actions == BatchActions(lines[..i])
    {
      assert lines[..i + 1][..i] == lines[..i];
      var more := DispatchLine(lines[i]);
      actions := actions + more;
    }
    assert lines[..|lines|] == lines;
  }

  /**
   * One line gives at most three actions, in the order frame, breakpoint, deletion; a
   * result record gives at most one `ReadAsmFunc` and nothing else; a line that does not
   * parse gives nothing.
   */
  lemma RecordActionsShape(parsed: Option<OutputOneline>)
    ensures |RecordActions(parsed)| <= 3
    ensures forall i, j | 0 <= i < j < |RecordActions(parsed)| :: Rank(RecordActions(parsed)[i]) < Rank(RecordActions(parsed)[j])
    ensures parsed.None? ==> RecordActions(parsed) == []
    ensures parsed.Some? && parsed.value.ResultLine? ==>
      |RecordActions(parsed)| <= 1 && forall k | 0 <= k < |RecordActions(parsed)| :: RecordActions(parsed)[k].ReadAsmFunc?
  {
    match parsed {
      case Some(OutOfBand(a)) =>
        FrameRouting(a);
        var fa, ba, da := FrameActions(a), BreakpointActions(a), DeletedActions(a);
      case _ =>
    }
  }

  // ---------------------------------------------------------------- cutting bytes into lines

  /** `char::from(u8)`: each byte is the character with that code. */
  function Latin1(bs: seq<byte>): (s: string)
    ensures |s| == |bs| && forall k | 0 <= k < |bs| :: s[k] as int == bs[k]
  {
    if |bs| == 0 then "" else Latin1(bs[..|bs| - 1]) + [bs[|bs| - 1] as char]
  }

  /** The characters with every carriage return removed. */
  function DropCr(s: string): (r: string)
    ensures '\r' !in r && |r| <= |s|
  {
    if |s| == 0 then "" else DropCr(s[..|s| - 1]) + KeepChar(s[|s| - 1])
  }

  function KeepChar(c: char): string
  {
    if c == '\r' then "" else [c]
  }

  lemma {:induction false} DropCrAppend(a: string, b: string)
    ensures DropCr(a + b) == DropCr(a) + DropCr(b)
    decreases |b|
  {
    if |b| == 0 {
      assert a + b == a;
    } else {
      assert (a + b)[..|a + b| - 1] == a + b[..|b| - 1];
      DropCrAppend(a, b[..|b| - 1]);
    }
  }

  /** Carriage returns are dropped wherever they fall, so `\r\n` ends a line just as `\n` does. */
  lemma DropCrCrLf(s: string, t: string)
    ensures DropCr(s + "\r\n" + t) == DropCr(s + "\n" + t)
  {
    DropCrAppend(s + "\r\n", t);
    DropCrAppend(s + "\n", t);
    DropCrAppend(s, "\r\n");
    DropCrAppend(s, "\n");
    assert "\r\n"[..1] == "\r";
    assert DropCr("\r\n") == "\n";
  }

  /** One character's effect on the completed lines and the carried text. */
  function Step(st: (seq<string>, string), c: char): (seq<string>, string)
  {
    if c == '\n' then (st.0 + [st.1 + [c]], "") else (st.0, st.1 + [c])
  }

  /**
   * The lines completed while the characters `cs` arrive on top of the carried text
   * `line`, and the text carried afterwards: a `\n` ends a line (and belongs to it).
   */
  function Cut(line: string, cs: string): (r: (seq<string>, string))
  {
    if |cs| == 0 then ([], line) else Step(Cut(line, cs[..|cs| - 1]), cs[|cs| - 1])
  }

  /** A complete line: it ends with its only `\n`. */
  predicate IsCompleteLine(l: string)
  {
    |l| > 0 && l[|l| - 1] == '\n' && '\n' !in l[..|l| - 1]
  }

  function CountNewlines(s: string): nat
  {
    if |s| == 0 then 0 else CountNewlines(s[..|s| - 1]) + if s[|s| - 1] == '\n' then 1 else 0
  }

  lemma CutSnoc(line: string, cs: string, c: char)
    ensures Cut(line, cs + [c]) == Step(Cut(line, cs), c)
  {
    assert (cs + [c])[..|cs|] == cs;
  }

  /**
   * Cutting loses and adds nothing: the completed lines followed by the carried text are
   * the old carried text followed by the new characters. Every completed line ends with
   * its only `\n`, one line per `\n` received, and the carried text holds no `\n`.
   */
  lemma {:induction false} CutKeepsText(line: string, cs: string)
    requires '\n' !in line
    ensures VecStringToString(Cut(line, cs).0) + Cut(line, cs).1 == line + cs
    ensures forall k | 0 <= k < |Cut(line, cs).0| :: IsCompleteLine(Cut(line, cs).0[k])
    ensures '\n' !in Cut(line, cs).1
    ensures |Cut(line, cs).0| == CountNewlines(cs)
    decreases |cs|
  {
    if |cs| == 0 {
      assert line + cs == line;
    } else {
      var init := cs[..|cs| - 1];
      var c := cs[|cs| - 1];
      CutKeepsText(line, init);
      var lines := Cut(line, init).0;
      var carried := Cut(line, init).1;
      var v := VecStringToString(lines);
      assert v + carried == line + init;
      assert line + cs == (line + init) + [c] by {
        assert cs == init + [c];
      }
      if c == '\n' {
        var l := carried + [c];
        assert l[..|l| - 1] == carried;
        assert VecStringToString(lines + [l]) == v + l by {
          assert (lines + [l])[..|lines|] == lines;
        }
        assert v + l + "" == (v + carried) + [c];
        assert forall k | 0 <= k < |lines| :: (lines + [l])[k] == lines[k];
      } else {
        assert v + (carried + [c]) == (v + carried) + [c];
      }
    }
  }

  /** Characters arriving in two reads are cut as if they had arrived in one. */
  lemma {:induction false} CutAppend(line: string, a: string, b: string)
    ensures Cut(line, a + b) == (Cut(line, a).0 + Cut(Cut(line, a).1, b).0, Cut(Cut(line, a).1, b).1)
    decreases |b|
  {
    if |b| == 0 {
      assert a + b == a;
      assert Cut(line, a).0 + [] == Cut(line, a).0;
    } else {
      var init := b[..|b| - 1];
      assert (a + b)[..|a + b| - 1] == a + init;
      CutAppend(line, a, init);
      var c := b[|b| - 1];
      var x := Cut(line, a).0;
      var st := Cut(Cut(line, a).1, init);
      if c == '\n' {
        assert (x + st.0) + [st.1 + [c]] == x + (st.0 + [st.1 + [c]]);
      }
    }
  }

  lemma ReadChar(buf: seq<byte>, i: nat)
    requires i < |buf|
    ensures DropCr(Latin1(buf[..i + 1])) == DropCr(Latin1(buf[..i])) + KeepChar(buf[i] as char)
  {
    var c := buf[i] as char;
    assert Latin1(buf[..i + 1]) == Latin1(buf[..i]) + [c] by {
      assert buf[..i + 1][..i] == buf[..i];
    }
    DropCrAppend(Latin1(buf[..i]), [c]);
    assert DropCr([c]) == KeepChar(c) by {
      assert [c][..0] == [];
    }
  }

  /** One character received by the reader: a carriage return is skipped, anything else cut. */
  lemma ReadStep(line: string, cs: string, c: char)
    ensures Cut(line, cs + KeepChar(c)) == if c == '\r' then Cut(line, cs) else Step(Cut(line, cs), c)
  {
    if c == '\r' {
      assert cs + KeepChar(c) == cs;
    } else {
      CutSnoc(line, cs, c);
    }
  }

  /** What the reader received is still its completed lines followed by the carried text. */
  lemma ReadKeepsText(completed: seq<string>, received: string, start: string, cs: string,
                      outLine: seq<string>, line: string)
    requires VecStringToString(completed) + start == received && '\n' !in start
    requires (outLine, line) == Cut(start, cs)
    ensures VecStringToString(completed + outLine) + line == received + cs
  {
    CutKeepsText(start, cs);
    VecStringToStringAppend(completed, outLine);
    var v := VecStringToString(completed);
    var w := VecStringToString(outLine);
    assert w + line == start + cs;
    calc {
      VecStringToString(completed + outLine) + line;
      (v + w) + line;
      v + (w + line);
      v + (start + cs);
      (v + start) + cs;
    }
  }

  /** The reader only ever completes lines that end with their only `\n`. */
  lemma ReadCompletesLines(completed: seq<string>, start: string, cs: string, outLine: seq<string>)
    requires '\n' !in start && outLine == Cut(start, cs).0
    requires forall k | 0 <= k < |completed| :: IsCompleteLine(completed[k])
    ensures forall k | 0 <= k < |completed + outLine| :: IsCompleteLine((completed + outLine)[k])
  {
    CutKeepsText(start, cs);
    forall k | 0 <= k < |completed + outLine| ensures IsCompleteLine((completed + outLine)[k]) {
      if k >= |completed| {
        assert (completed + outLine)[k] == outLine[k - |completed|];
      } else {
        assert (completed + outLine)[k] == completed[k];
      }
    }
  }

  /**
   * The characters of `chunk`, one per byte, carriage returns skipped, cut on top of the
   * carried text: the lines completed and the text carried on.
   */
  method CutBytes(line: string, chunk: seq<byte>) returns (outLine: seq<string>, carried: string)
    ensures (outLine, carried) == Cut(line, DropCr(Latin1(chunk)))
  {
    outLine := [];
    carried := line;
    for i := 0 to |chunk|
      invariant (outLine, carried) == Cut(line, DropCr(Latin1(chunk[..i])))
    {
      var c := chunk[i] as char;
      ReadChar(chunk, i);
      ReadStep(line, DropCr(Latin1(chunk[..i])), c);
      if c != '\r' {
        if c == '\n' {
          carried := carried + [c];
          outLine := outLine + [carried];
          carried := "";
        } else {
          carried := carried + [c];
        }
      }
    }
    assert chunk[..|chunk|] == chunk;
  }

  /**
   * The reader's state between reads: the text of the line not yet ended by a `\n`, and,
   * for the proofs, everything received so far (carriage returns removed) and the lines
   * completed so far.
   */
  class MiReader {
    var line: string
    ghost var received: string
    ghost var completed: seq<string>

    ghost predicate Valid()
      reads this
    {
      && VecStringToString(completed) + line == received
      && '\n' !in line
      && forall k | 0 <= k < |completed| :: IsCompleteLine(completed[k])
    }

    constructor ()
      ensures Valid() && line == "" && received == "" && completed == []
    {
      line := "";
      received := "";
      completed := [];
    }

    /**
     * One read of `n` bytes into the buffer `buf`: each byte becomes one character,
     * carriage returns are dropped, and each `\n` completes a line that is returned.
     */
    method Read(buf: seq<byte>, n: nat) returns (outLine: seq<string>)
      requires Valid() && n <= |buf|
      modifies this
      ensures Valid()
      ensures (outLine, line) == Cut(old(line), DropCr(Latin1(buf[..n])))
      ensures received == old(received) + DropCr(Latin1(buf[..n]))
      ensures completed == old(completed) + outLine
      ensures n == 0 ==> outLine == [] && line == old(line)
    {
      var carried := line;
      match n {
        case 0 =>
          outLine := [];
        case _ =>
          outLine, carried := CutBytes(line, buf[..n]);
      }
      ghost var cs := DropCr(Latin1(buf[..n]));
      CutKeepsText(line, cs);
      ReadKeepsText(completed, received, line, cs, outLine, carried);
      ReadCompletesLines(completed, line, cs, outLine);
      line := carried;
      received := received + cs;
      completed := completed + outLine;
    }

    /** One turn of the reader loop: read, cut into lines, and dispatch each completed line. */
    method ReadAndDispatch(buf: seq<byte>, n: nat) returns (actions: seq<Action>)
      requires Valid() && n <= |buf|
      modifies this
      ensures Valid()
      ensures line == Cut(old(line), DropCr(Latin1(buf[..n]))).1
      ensures actions == BatchActions(Cut(old(line), DropCr(Latin1(buf[..n]))).0)
    {
      var outLine := Read(buf, n);
      actions := DispatchLines(outLine);
    }
  }

  // ---------------------------------------------------------------- asking for a disassembly

  /** The MI command that disassembles the function around `addr`, as one line. */
  function DisassembleCommand(addr: string): string
  {
    "-data-disassemble -a " + addr + " -- 0\n"
  }

  /** The address a disassembly command asks about, if the line is one. */
  function CommandAddr(s: string): (r: Option<string>)
    ensures r.Some? ==> DisassembleCommand(r.value) == s
  {
    var pre := "-data-disassemble -a ";
    var post := " -- 0\n";
    if |s| >= |pre| + |post| && s[..|pre|] == pre && s[|s| - |post|..] == post then
      assert s == pre + s[|pre|..|s| - |post|] + post;
      Some(s[|pre|..|s| - |post|])
    else None
  }

  /** The command names its address unambiguously: it can be read back from the line. */
  lemma DisassembleCommandAddr(addr: string)
    ensures CommandAddr(DisassembleCommand(addr)) == Some(addr)
  {
    var s := DisassembleCommand(addr);
    assert s[..21] == "-data-disassemble -a ";
    assert s[|s| - 6..] == " -- 0\n";
    assert s[21..|s| - 6] == addr;
  }

  /**
   * The component's handle on GDB's MI input: the lines written to it so far, when a
   * writer is present (the pty is open).
   */
  class Gdbmi {
    var hasWriter: bool
    var written: seq<string>

    /** `update`, for a `DisassembleAsm` request: write the command if GDB is there. */
    method Update(action: Action) returns (ret: Option<Action>)
      modifies this
      ensures ret == None && hasWriter == old(hasWriter)
      ensures written == if action.DisassembleAsm? && hasWriter then old(written) + [DisassembleCommand(action.addr)] else old(written)
    {
      ret := None;
      match action {
        case DisassembleAsm(addr) =>
          if hasWriter {
            written := written + [DisassembleCommand(addr)];
          }
        case _ =>
      }
    }
  }
}
