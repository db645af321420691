/**
 * The reply to `-data-disassemble`: `^done,asm_insns=[{address=...,func-name=...,
 * offset=...,inst=...},...]` turned into one function's instruction list.
 */
module Disassemble {
  import opened Options
  import opened Numeric
  import opened Token
  import opened Fields

  datatype DisassembleFunctionLine = DisassembleFunctionLine(address: string, offset: u64, inst: string)

  datatype DisassembleFunction = DisassembleFunction(func: string, insts: seq<DisassembleFunctionLine>)

  /** The `offset` local: every `offset` constant reassigns it with its reading, readable or not. */
  function LastOffset(rs: seq<ResultType>): Option<u64>
  {
    match LastConst(rs, "offset") case None => None case Some(t) => ParseU64(t)
  }

  /**
   * The instruction an element describes, with the function it names: the last `address`,
   * `func-name` and `inst` constants and the reading of the last `offset` constant, all
   * four required.
   */
  function LineSpec(v: ValueType): Option<(string, DisassembleFunctionLine)>
  {
    var rs := TupleItems(v);
    match (LastConst(rs, "address"), LastConst(rs, "func-name"), LastOffset(rs), LastConst(rs, "inst"))
    case (Some(a), Some(f), Some(o), Some(i)) => Some((f, DisassembleFunctionLine(a, o, i)))
    case _ => None
  }

  /** `get_disassemble_function_line`: one pass over the element's items, then the final match. */
  method GetDisassembleFunctionLine(v: ValueType) returns (res: Option<(string, DisassembleFunctionLine)>)
    ensures res == LineSpec(v)
  {
    var addr: Option<string> := None;
    var func: Option<string> := None;
    var offset: Option<u64> := None;
    var inst: Option<string> := None;
    var rs := TupleItems(v);
    for i := 0 to |rs|
      invariant addr == LastConst(rs[..i], "address") && func == LastConst(rs[..i], "func-name")
      invariant offset == LastOffset(rs[..i]) && inst == LastConst(rs[..i], "inst")
    {
      var r := rs[i];
      assert rs[..i + 1] == rs[..i] + [r];
      LastSelectedSnoc(rs[..i], r, ConstNamed("address"));
      LastSelectedSnoc(rs[..i], r, ConstNamed("func-name"));
      LastSelectedSnoc(rs[..i], r, ConstNamed("offset"));
      LastSelectedSnoc(rs[..i], r, ConstNamed("inst"));
      match r.variable {
        case "address" =>
          if r.value.Const? {
            addr := Some(r.value.text);
          }
        case "func-name" =>
          if r.value.Const? {
            func := Some(r.value.text);
          }
        case "inst" =>
          if r.value.Const? {
            inst := Some(r.value.text);
          }
        case "offset" =>
          if r.value.Const? {
            offset := ParseU64(r.value.text);
          }
        case _ =>
      }
    }
    assert rs[..|rs|] == rs;
    match (addr, func, offset, inst) {
      case (Some(a), Some(f), Some(o), Some(n)) => res := Some((f, DisassembleFunctionLine(a, o, n)));
      case _ => res := None;
    }
  }

  /** An unreadable `offset` after a readable one discards the element. */
  lemma UnreadableOffsetDiscards(rs: seq<ResultType>, text: string)
    requires ParseU64(text).None?
    ensures LineSpec(Tuple(TupleResults(rs + [ResultType("offset", Const(text))]))).None?
  {
    LastSelectedSnoc(rs, ResultType("offset", Const(text)), ConstNamed("offset"));
  }

  /** The elements that describe an instruction, in order, each with the function it names. */
  function KeptLines(vs: seq<ValueType>): seq<(string, DisassembleFunctionLine)>
  {
    if |vs| == 0 then [] else KeptLines(vs[..|vs| - 1]) + KeptLine(vs[|vs| - 1])
  }

  /** What one element contributes: its instruction, if it describes one. */
  function KeptLine(v: ValueType): seq<(string, DisassembleFunctionLine)>
  {
    match LineSpec(v) case Some(p) => [p] case None => []
  }

  /** Keeping lines commutes with concatenating replies: the order of instructions is the reply's. */
  lemma {:induction false} KeptLinesAppend(a: seq<ValueType>, b: seq<ValueType>)
    ensures KeptLines(a + b) == KeptLines(a) + KeptLines(b)
    decreases |b|
  {
    if |b| == 0 {
      assert a + b == a;
    } else {
      var init, last := b[..|b| - 1], b[|b| - 1];
      assert (a + b)[..|a + b| - 1] == a + init;
      assert (a + b)[|a + b| - 1] == last;
      KeptLinesAppend(a, init);
      calc {
        KeptLines(a + b);
        KeptLines(a + init) + KeptLine(last);
        (KeptLines(a) + KeptLines(init)) + KeptLine(last);
        KeptLines(a) + (KeptLines(init) + KeptLine(last));
        KeptLines(a) + KeptLines(b);
      }
    }
  }

  function Insts(ks: seq<(string, DisassembleFunctionLine)>): (r: seq<DisassembleFunctionLine>)
    ensures |r| == |ks| && forall k | 0 <= k < |ks| :: r[k] == ks[k].1
  {
    if |ks| == 0 then [] else Insts(ks[..|ks| - 1]) + [ks[|ks| - 1].1]
  }

  predicate SameFunc(ks: seq<(string, DisassembleFunctionLine)>)
  {
    forall k | 0 <= k < |ks| :: ks[k].0 == ks[0].0
  }

  /** The elements of a `^done` reply whose first result is `asm_insns=[...]`, else none at all. */
  predicate IsInsnsReply(r: ResultRecord)
  {
    r.resultClass == Done && |r.results| > 0 && r.results[0].variable == "asm_insns"
    && r.results[0].value.List? && r.results[0].value.list.ValueList?
  }

  /**
   * The function a reply describes: the kept instructions in order, under the function the
   * first of them names, provided there is at least one and all name the same function.
   */
  function DisassembleSpec(r: ResultRecord): Option<DisassembleFunction>
  {
    if !IsInsnsReply(r) then None
    else
      var ks := KeptLines(r.results[0].value.list.values);
      if |ks| > 0 && SameFunc(ks) then Some(DisassembleFunction(ks[0].0, Insts(ks))) else None
  }

  /** The loop state of `get_disassemble_function` after keeping the lines `ks`. */
  predicate Scanned(ks: seq<(string, DisassembleFunctionLine)>, func: Option<string>, same: bool,
                    insts: seq<DisassembleFunctionLine>)
  {
    && insts == Insts(ks)
    && func == (if |ks| == 0 then None else Some(ks[0].0))
    && same == SameFunc(ks)
  }

  lemma KeptStep(l: seq<ValueType>, i: nat, line: Option<(string, DisassembleFunctionLine)>)
    requires i < |l| && line == LineSpec(l[i])
    ensures KeptLines(l[..i + 1]) == KeptLines(l[..i]) + if line.Some? then [line.value] else []
  {
    assert l[..i + 1][..i] == l[..i];
  }

  /** Keeping one more line: it joins the instructions, and must name the first line's function. */
  lemma ScanStep(ks: seq<(string, DisassembleFunctionLine)>, p: (string, DisassembleFunctionLine))
    ensures Insts(ks + [p]) == Insts(ks) + [p.1]
    ensures (ks + [p])[0].0 == if |ks| == 0 then p.0 else ks[0].0
    ensures SameFunc(ks + [p]) == (SameFunc(ks) && (|ks| == 0 || ks[0].0 == p.0))
  {
    assert (ks + [p])[..|ks|] == ks;
    if SameFunc(ks) && (|ks| == 0 || ks[0].0 == p.0) {
      assert SameFunc(ks + [p]) by {
        forall k | 0 <= k < |ks| + 1 ensures (ks + [p])[k].0 == (ks + [p])[0].0 {
          if k < |ks| { assert (ks + [p])[k] == ks[k]; }
        }
      }
    }
    if SameFunc(ks + [p]) && |ks| > 0 {
      assert (ks + [p])[|ks|] == p;
      assert forall k | 0 <= k < |ks| :: ks[k] == (ks + [p])[k];
    }
  }

  /** `get_disassemble_function`. */
  method GetDisassembleFunction(r: ResultRecord) returns (res: Option<DisassembleFunction>)
    ensures res == DisassembleSpec(r)
  {
    var same := true;
    var func: Option<string> := None;
    var insts: seq<DisassembleFunctionLine> := [];
    if r.resultClass == Done && |r.results| > 0 {
      var v := r.results[0];
      if v.variable == "asm_insns" && v.value.List? && v.value.list.ValueList? {
        var l := v.value.list.values;
        ghost var ks: seq<(string, DisassembleFunctionLine)> := [];
        for i := 0 to |l|
          invariant ks == KeptLines(l[..i])
          invariant Scanned(ks, func, same, insts)
        {
          var line := GetDisassembleFunctionLine(l[i]);
          KeptStep(l, i, line);
          if line.Some? {
            var (f, dfl) := line.value;
            ScanStep(ks, line.value);
            insts := insts + [dfl];
            match func {
              case Some(fn) => same := same && fn == f;
              case None => func := Some(f);
            }
            ks := ks + [line.value];
          }
        }
        assert l[..|l|] == l;
        ScannedAll(r, func, same, insts);
      }
    }
    match (func, same) {
      case (Some(f), true) => res := Some(DisassembleFunction(f, insts));
      case _ => res := None;
    }
  }

  /** After the whole list, the loop state decides the reply as the specification does. */
  lemma ScannedAll(r: ResultRecord, func: Option<string>, same: bool, insts: seq<DisassembleFunctionLine>)
    requires IsInsnsReply(r)
    requires Scanned(KeptLines(r.results[0].value.list.values), func, same, insts)
    ensures DisassembleSpec(r) == match (func, same)
      case (Some(f), true) => Some(DisassembleFunction(f, insts))
      case _ => None
  {
  }

  /**
   * A described function holds exactly the kept instructions, in reply order, and every
   * kept instruction names that function; nothing is described unless the reply is a
   * `^done` whose first result is `asm_insns` with a list of elements.
   */
  lemma DisassembleShape(r: ResultRecord)
    ensures DisassembleSpec(r).Some? ==> IsInsnsReply(r)
    ensures DisassembleSpec(r).Some? ==>
      var ks := KeptLines(r.results[0].value.list.values);
      && |DisassembleSpec(r).value.insts| == |ks| > 0
      && forall k | 0 <= k < |ks| :: ks[k].0 == DisassembleSpec(r).value.func && DisassembleSpec(r).value.insts[k] == ks[k].1
  {
  }

  /** One more instruction naming another function spoils the whole reply. */
  lemma StrayFunctionSpoils(vs: seq<ValueType>, v: ValueType, rest: seq<ResultType>)
    requires DisassembleSpec(ResultRecord(Done, [ResultType("asm_insns", List(ValueList(vs)))] + rest)).Some?
    requires LineSpec(v).Some?
    requires LineSpec(v).value.0 != DisassembleSpec(ResultRecord(Done, [ResultType("asm_insns", List(ValueList(vs)))] + rest)).value.func
    ensures DisassembleSpec(ResultRecord(Done, [ResultType("asm_insns", List(ValueList(vs + [v])))] + rest)).None?
  {
    var ks := KeptLines(vs);
    assert (vs + [v])[..|vs|] == vs;
    var ks' := KeptLines(vs + [v]);
    assert ks'[|ks'| - 1] == LineSpec(v).value;
  }

  /** Elements that describe no instruction are skipped without effect. */
  lemma SkippedElements(vs: seq<ValueType>, v: ValueType)
    requires LineSpec(v).None?
    ensures KeptLines(vs + [v]) == KeptLines(vs)
  {
    assert (vs + [v])[..|vs|] == vs;
  }

  /** Only the first result is looked at: anything after `asm_insns` changes nothing. */
  lemma OnlyFirstResult(c: ResultClass, x: ResultType, rest: seq<ResultType>)
    ensures DisassembleSpec(ResultRecord(c, [x] + rest)) == DisassembleSpec(ResultRecord(c, [x]))
  {
  }

  /** An element of a `-data-disassemble` reply: `main`'s first instruction. */
  lemma MainFirstInstruction()
    ensures LineSpec(Tuple(TupleResults([
      ResultType("address", Const("0x0000000000400b10")), ResultType("func-name", Const("main")),
      ResultType("inst", Const("mov eax, 0x0")), ResultType("offset", Const("0"))])))
      == Some(("main", DisassembleFunctionLine("0x0000000000400b10", 0, "mov eax, 0x0")))
  {
    var rs := [ResultType("address", Const("0x0000000000400b10")), ResultType("func-name", Const("main")),
               ResultType("inst", Const("mov eax, 0x0")), ResultType("offset", Const("0"))];
    assert ParseU64("0") == Some(0) by { assert DecValue("0") == DecValue("") * 10 + 0; }
    assert LastConst(rs, "offset") == Some("0");
    assert LastConst(rs, "inst") == Some("mov eax, 0x0");
    var a, f, i := rs[..1], rs[..2], rs[..3];
    assert rs == i + [rs[3]] && i == f + [rs[2]] && f == a + [rs[1]];
    LastSelectedSnoc(i, rs[3], ConstNamed("func-name"));
    LastSelectedSnoc(f, rs[2], ConstNamed("func-name"));
    assert LastConst(rs, "func-name") == Some("main");
    LastSelectedSnoc(i, rs[3], ConstNamed("address"));
    LastSelectedSnoc(f, rs[2], ConstNamed("address"));
    LastSelectedSnoc(a, rs[1], ConstNamed("address"));
    assert LastConst(rs, "address") == Some("0x0000000000400b10");
  }
}
