/**
 * `AsmFuncData`: the cached disassembly of one function, laid out as GDB's own
 * `disassemble` command prints it, with a table from instruction addresses to the lines
 * that show them.
 */
module AsmFunc {
  import opened Options
  import opened Numeric
  import opened LineRange
  import opened Disassemble
  import opened Breakpoint

  // ---------------------------------------------------------------- layout

  const DumpEnd := "End of assembler dump."

  function DumpHeader(func: string): string
  {
    "Dump of assembler code for function " + func + ":"
  }

  function Spaces(n: nat): (s: string)
    ensures |s| == n && forall k | 0 <= k < n :: s[k] == ' '
  {
    if n == 0 then "" else Spaces(n - 1) + " "
  }

  /** Everything of an instruction line before the instruction text. */
  function InstPrefix(l: DisassembleFunctionLine, width: nat): string
  {
    var off := DecimalText(l.offset);
    "    " + l.address + " <+" + off + ">:" + Spaces(if |off| <= width then width - |off| else 0) + " "
  }

  /** `    <address> <+<offset>>:<pad> <inst>` and a newline, the offset padded to `width`. */
  function InstLine(l: DisassembleFunctionLine, width: nat): string
  {
    InstPrefix(l, width) + l.inst + "\n"
  }

  /** The width every offset is padded to: that of the last instruction's offset. */
  function OffsetWidth(insts: seq<DisassembleFunctionLine>): nat
    requires |insts| > 0
  {
    |DecimalText(insts[|insts| - 1].offset)|
  }

  /** The lines `add_lines` appends: header, one line per instruction in order, trailer. */
  function DumpLines(f: DisassembleFunction): (r: seq<string>)
    ensures |f.insts| == 0 ==> r == []
    ensures |f.insts| > 0 ==>
      && |r| == |f.insts| + 2
      && r[0] == DumpHeader(f.func) && r[|r| - 1] == DumpEnd
      && forall i | 0 <= i < |f.insts| :: r[i + 1] == InstLine(f.insts[i], OffsetWidth(f.insts))
  {
    if |f.insts| == 0 then []
    else [DumpHeader(f.func)] + InstLines(f.insts, OffsetWidth(f.insts)) + [DumpEnd]
  }

  function InstLines(insts: seq<DisassembleFunctionLine>, width: nat): (r: seq<string>)
    ensures |r| == |insts| && forall i | 0 <= i < |insts| :: r[i] == InstLine(insts[i], width)
  {
    if |insts| == 0 then [] else InstLines(insts[..|insts| - 1], width) + [InstLine(insts[|insts| - 1], width)]
  }

  /** The instruction text starts after the address and the offset padded to at least `width`. */
  lemma InstPrefixLength(l: DisassembleFunctionLine, width: nat)
    ensures |InstPrefix(l, width)| == 4 + |l.address| + 5 + Max(width, |DecimalText(l.offset)|) + 1
  {
  }

  /** The decimal text of a larger number is never shorter. */
  lemma {:induction false} DecimalWidthMonotone(a: nat, b: nat)
    requires a <= b
    ensures |DecimalText(a)| <= |DecimalText(b)|
  {
    if a >= 10 {
      DecimalWidthMonotone(a / 10, b / 10);
    }
  }

  /**
   * Offsets grow along a function, so padding to the last offset's width lines the
   * instructions up: two lines whose addresses have the same length start their
   * instruction text in the same column.
   */
  lemma InstructionsAligned(insts: seq<DisassembleFunctionLine>, i: nat, j: nat)
    requires i < |insts| && j < |insts|
    requires forall k | 0 <= k < |insts| :: insts[k].offset <= insts[|insts| - 1].offset
    requires |insts[i].address| == |insts[j].address|
    ensures |InstPrefix(insts[i], OffsetWidth(insts))| == |InstPrefix(insts[j], OffsetWidth(insts))|
  {
    var last := insts[|insts| - 1].offset;
    DecimalWidthMonotone(insts[i].offset, last);
    DecimalWidthMonotone(insts[j].offset, last);
    InstPrefixLength(insts[i], OffsetWidth(insts));
    InstPrefixLength(insts[j], OffsetWidth(insts));
  }

  // ---------------------------------------------------------------- address table

  /** Table entries compare as pairs: by address, then by line. */
  predicate PairLe(a: (u64, u64), b: (u64, u64))
  {
    a.0 < b.0 || (a.0 == b.0 && a.1 <= b.1)
  }

  predicate Sorted(xs: seq<(u64, u64)>)
  {
    forall i, j | 0 <= i < j < |xs| :: PairLe(xs[i], xs[j])
  }

  /** The entry of instruction `i` (from 0): one when its address parses, none otherwise. */
  function EntryOf(l: DisassembleFunctionLine, i: usize, base: usize): (r: seq<(u64, u64)>)
    requires i < USIZE_MAX
    ensures |r| <= 1
  {
    match ParseHexAddr(l.address)
    case Some(a) => [(a, SatAdd(SatAdd(i, 1), base))]
    case None => []
  }

  lemma EntryOfMembers(l: DisassembleFunctionLine, i: usize, base: usize, e: (u64, u64))
    requires i + 1 + base <= USIZE_MAX
    ensures e in EntryOf(l, i, base) <==> ParseHexAddr(l.address) == Some(e.0) && e.1 == i + 1 + base
  {
  }

  /**
   * The unsorted table for instructions numbered from 0: instruction `i` with an address
   * that reads as `0x`-prefixed hex gives `(address, i + 1 + base)`; the others give nothing.
   */
  function AddrEntries(insts: seq<DisassembleFunctionLine>, base: usize): seq<(u64, u64)>
    requires |insts| <= USIZE_MAX
  {
    if |insts| == 0 then []
    else AddrEntries(insts[..|insts| - 1], base) + EntryOf(insts[|insts| - 1], |insts| - 1, base)
  }

  /** An instruction at `e.0` shown at line `e.1`: instruction `i` from 0 sits on line `i + 1 + base`. */
  predicate IsEntry(insts: seq<DisassembleFunctionLine>, i: nat, base: usize, e: (u64, u64))
    requires i < |insts|
  {
    ParseHexAddr(insts[i].address) == Some(e.0) && e.1 == i + 1 + base
  }

  lemma {:induction false} EntriesAreInstructions(insts: seq<DisassembleFunctionLine>, base: usize, e: (u64, u64))
    requires |insts| + base < USIZE_MAX
    requires e in AddrEntries(insts, base)
    ensures exists i | 0 <= i < |insts| :: IsEntry(insts, i, base, e)
    decreases |insts|
  {
    var n := |insts| - 1;
    var init := insts[..n];
    EntryOfMembers(insts[n], n, base, e);
    if e in AddrEntries(init, base) {
      EntriesAreInstructions(init, base, e);
      var i :| 0 <= i < n && IsEntry(init, i, base, e);
      assert init[i] == insts[i];
      assert IsEntry(insts, i, base, e);
    } else {
      assert IsEntry(insts, n, base, e);
    }
  }

  lemma {:induction false} InstructionsAreEntries(insts: seq<DisassembleFunctionLine>, base: usize, e: (u64, u64), i: nat)
    requires |insts| + base < USIZE_MAX
    requires i < |insts| && IsEntry(insts, i, base, e)
    ensures e in AddrEntries(insts, base)
    decreases |insts|
  {
    var n := |insts| - 1;
    var init := insts[..n];
    assert AddrEntries(insts, base) == AddrEntries(init, base) + EntryOf(insts[n], n, base);
    if i < n {
      assert init[i] == insts[i];
      InstructionsAreEntries(init, base, e, i);
    } else {
      EntryOfMembers(insts[n], n, base, e);
    }
  }

  /** `(a, l)` is an entry exactly when some instruction at address `a` is shown at line `l`. */
  lemma AddrEntriesMembers(insts: seq<DisassembleFunctionLine>, base: usize, e: (u64, u64))
    requires |insts| + base < USIZE_MAX
    ensures e in AddrEntries(insts, base) <==> exists i | 0 <= i < |insts| :: IsEntry(insts, i, base, e)
  {
    if e in AddrEntries(insts, base) {
      EntriesAreInstructions(insts, base, e);
    }
    if i :| 0 <= i < |insts| && IsEntry(insts, i, base, e) {
      InstructionsAreEntries(insts, base, e, i);
    }
  }

  /** Sorted insertion of one entry. */
  function Insert(x: (u64, u64), xs: seq<(u64, u64)>): (r: seq<(u64, u64)>)
    ensures multiset(r) == multiset(xs) + multiset{x} && |r| == |xs| + 1
  {
    if |xs| == 0 then [x]
    else if PairLe(x, xs[0]) then [x] + xs
    else
      assert xs == [xs[0]] + xs[1..];
      [xs[0]] + Insert(x, xs[1..])
  }

  lemma {:induction false} InsertSorted(x: (u64, u64), xs: seq<(u64, u64)>)
    requires Sorted(xs)
    ensures Sorted(Insert(x, xs))
    decreases |xs|
  {
    if |xs| > 0 && !PairLe(x, xs[0]) {
      InsertSorted(x, xs[1..]);
      var r := Insert(x, xs);
      var t := Insert(x, xs[1..]);
      assert r == [xs[0]] + t;
      forall k | 0 <= k < |t| ensures PairLe(xs[0], t[k]) {
        assert t[k] in multiset(t);
        assert t[k] == x || t[k] in multiset(xs[1..]);
        if t[k] != x {
          var m :| 0 <= m < |xs[1..]| && xs[1..][m] == t[k];
          assert xs[1..][m] == xs[m + 1];
        }
      }
    }
  }

  /** `sort()` on the table: ascending as pairs. */
  function SortPairs(xs: seq<(u64, u64)>): (r: seq<(u64, u64)>)
    ensures multiset(r) == multiset(xs) && |r| == |xs|
  {
    if |xs| == 0 then []
    else
      assert xs == xs[..|xs| - 1] + [xs[|xs| - 1]];
      Insert(xs[|xs| - 1], SortPairs(xs[..|xs| - 1]))
  }

  lemma {:induction false} SortPairsSorted(xs: seq<(u64, u64)>)
    ensures Sorted(SortPairs(xs))
    decreases |xs|
  {
    if |xs| > 0 {
      SortPairsSorted(xs[..|xs| - 1]);
      InsertSorted(xs[|xs| - 1], SortPairs(xs[..|xs| - 1]));
    }
  }

  /** `create_addr_map`'s table: the entries, sorted. */
  function AddrMap(insts: seq<DisassembleFunctionLine>, base: usize): seq<(u64, u64)>
    requires |insts| <= USIZE_MAX
  {
    SortPairs(AddrEntries(insts, base))
  }

  lemma AddrMapSorted(insts: seq<DisassembleFunctionLine>, base: usize)
    requires |insts| <= USIZE_MAX
    ensures Sorted(AddrMap(insts, base))
  {
    SortPairsSorted(AddrEntries(insts, base));
  }

  /**
   * The table holds, in ascending order, exactly one entry per instruction whose address
   * parses, pairing that address with the instruction's line: the `i`-th (from 0) is at
   * line `i + 2`, after the header line.
   */
  lemma AddrMapSpec(insts: seq<DisassembleFunctionLine>, e: (u64, u64))
    requires |insts| + 1 < USIZE_MAX
    ensures Sorted(AddrMap(insts, 1))
    ensures multiset(AddrMap(insts, 1)) == multiset(AddrEntries(insts, 1))
    ensures e in AddrMap(insts, 1) <==> exists i | 0 <= i < |insts| :: IsEntry(insts, i, 1, e)
  {
    SortPairsSorted(AddrEntries(insts, 1));
    AddrEntriesMembers(insts, 1, e);
    assert e in AddrMap(insts, 1) <==> e in multiset(AddrMap(insts, 1));
    assert e in AddrEntries(insts, 1) <==> e in multiset(AddrEntries(insts, 1));
  }

  /** All white: the assembly view does not colour instructions. */
  function WhiteLines(ls: seq<string>): (r: seq<HighlightLine>)
    ensures |r| == |ls| && forall k | 0 <= k < |ls| :: r[k] == [(White, ls[k])]
  {
    seq(|ls|, k requires 0 <= k < |ls| => [(White, ls[k])])
  }

  /** `get_breakpoint_need_show_in_range`: the assembly view marks no breakpoints. */
  function BreakpointNeedShowInRange(breakpoints: seq<BreakPointData>, startLine: usize, endLine: usize): (r: map<u64, bool>)
    ensures forall line | line in r :: false
  {
    map[]
  }

  /**
   * `binary_search_by_key` on the address of a sorted table, between `lo` and `hi`:
   * the line paired with some entry at `a`, or nothing when no entry is at `a`.
   */
  function Search(xs: seq<(u64, u64)>, a: u64, lo: nat, hi: nat): (r: Option<u64>)
    requires Sorted(xs) && lo <= hi <= |xs|
    requires forall k | 0 <= k < lo :: xs[k].0 < a
    requires forall k | hi <= k < |xs| :: xs[k].0 > a
    ensures r.None? <==> forall k | 0 <= k < |xs| :: xs[k].0 != a
    ensures r.Some? ==> exists k | 0 <= k < |xs| :: xs[k] == (a, r.value)
    decreases hi - lo
  {
    if lo == hi then None
    else
      var mid := (lo + hi) / 2;
      if xs[mid].0 < a then
        assert forall k | 0 <= k <= mid :: PairLe(xs[k], xs[mid]);
        Search(xs, a, mid + 1, hi)
      else if xs[mid].0 > a then
        assert forall k | mid <= k < |xs| :: PairLe(xs[mid], xs[k]);
        Search(xs, a, lo, mid)
      else Some(xs[mid].1)
  }

  /**
   * `get_line_id`: the line showing the instruction at a `0x`-prefixed hex address;
   * nothing when the text is not such an address or no instruction is at it.
   */
  function LineId(addrs: seq<(u64, u64)>, addr: string): (r: Option<u64>)
    requires Sorted(addrs)
    ensures ParseHexAddr(addr).None? ==> r.None?
    ensures ParseHexAddr(addr).Some? ==>
      (r.None? <==> forall k | 0 <= k < |addrs| :: addrs[k].0 != ParseHexAddr(addr).value)
    ensures r.Some? ==> exists k | 0 <= k < |addrs| :: addrs[k] == (ParseHexAddr(addr).value, r.value)
  {
    match ParseHexAddr(addr)
    case None => None
    case Some(a) => Search(addrs, a, 0, |addrs|)
  }

  /** The loop of `add_lines` that formats a function with instructions. */
  method Dump(f: DisassembleFunction) returns (out: seq<string>)
    requires |f.insts| > 0
    ensures out == DumpLines(f)
  {
    var len := |DecimalText(f.insts[|f.insts| - 1].offset)|;
    out := [DumpHeader(f.func)];
    for i := 0 to |f.insts|
      invariant out == [DumpHeader(f.func)] + InstLines(f.insts[..i], len)
    {
      assert f.insts[..i + 1][..i] == f.insts[..i];
      out := out + [InstLine(f.insts[i], len)];
    }
    assert f.insts[..|f.insts|] == f.insts;
    out := out + [DumpEnd];
  }

  // ---------------------------------------------------------------- the cache entry

  class AsmFuncData {
    /** The function's name, which is also its key in the cache. */
    const funcName: string
    var addrs: seq<(u64, u64)>
    var lines: seq<string>
    var linesHighlight: seq<HighlightLine>
    var readDone: bool
    var highlightDone: bool

    /** The address table stays sorted, which the lookup relies on. */
    ghost predicate Valid()
      reads this
    {
      Sorted(addrs)
    }

    /** `AsmFuncData::new`: nothing disassembled yet. */
    constructor (funcName: string)
      ensures Valid() && this.funcName == funcName
      ensures addrs == [] && lines == [] && linesHighlight == [] && !readDone && !highlightDone
    {
      this.funcName := funcName;
      addrs := [];
      lines := [];
      linesHighlight := [];
      readDone := false;
      highlightDone := false;
    }

    /** `get_key`. */
    function GetKey(): (k: string)
      ensures k == funcName
    {
      funcName
    }

    method SetReadDone()
      modifies this
      ensures readDone && highlightDone == old(highlightDone)
      ensures addrs == old(addrs) && lines == old(lines) && linesHighlight == old(linesHighlight)
    {
      readDone := true;
    }

    method SetHighlightDone()
      modifies this
      ensures highlightDone && readDone == old(readDone)
      ensures addrs == old(addrs) && lines == old(lines) && linesHighlight == old(linesHighlight)
    {
      highlightDone := true;
    }

    function GetLinesLen(): (n: nat)
      reads this
      ensures n == |lines|
    {
      |lines|
    }

    /** `get_lines_range`. */
    function GetLinesRange(start: usize, end: usize): (r: (seq<string>, usize, usize))
      reads this
      requires |lines| < USIZE_MAX
      ensures r == LinesRange(lines, start, end)
    {
      LinesRange(lines, start, end)
    }

    /** `get_highlight_lines_range`. */
    function GetHighlightLinesRange(start: usize, end: usize): (r: (seq<HighlightLine>, usize, usize))
      reads this
      requires |linesHighlight| < USIZE_MAX
      ensures r == LinesRange(linesHighlight, start, end)
    {
      LinesRange(linesHighlight, start, end)
    }

    /**
     * `add_lines`: for a function with instructions, appends the dump of it and rebuilds
     * the address table; for one without, changes nothing.
     */
    method AddLines(f: DisassembleFunction)
      requires Valid() && |f.insts| < USIZE_MAX
      modifies this
      ensures Valid()
      ensures lines == old(lines) + DumpLines(f)
      ensures addrs == if |f.insts| == 0 then old(addrs) else AddrMap(f.insts, 1)
      ensures linesHighlight == old(linesHighlight) && readDone == old(readDone) && highlightDone == old(highlightDone)
    {
      if |f.insts| > 0 {
        var dump := Dump(f);
        lines := lines + dump;
        CreateAddrMap(f, 1);
      }
    }

    /** `create_addr_map`: the table is replaced by the sorted entries of the instructions. */
    method CreateAddrMap(f: DisassembleFunction, base: usize)
      requires |f.insts| <= USIZE_MAX
      modifies this
      ensures Valid() && addrs == AddrMap(f.insts, base)
      ensures lines == old(lines) && linesHighlight == old(linesHighlight)
      ensures readDone == old(readDone) && highlightDone == old(highlightDone)
    {
      AddrMapSorted(f.insts, base);
      addrs := AddrMap(f.insts, base);
    }

    /** `add_highlight_lines`: every line, one white span, replacing what was there. */
    method AddHighlightLines(f: DisassembleFunction)
      modifies this
      ensures linesHighlight == WhiteLines(lines)
      ensures lines == old(lines) && addrs == old(addrs) && readDone == old(readDone) && highlightDone == old(highlightDone)
    {
      linesHighlight := WhiteLines(lines);
    }

    /** `get_line_id` on this entry's table. */
    function GetLineId(addr: string): (r: Option<u64>)
      reads this
      requires Valid()
      ensures r == LineId(addrs, addr)
    {
      LineId(addrs, addr)
    }
  }

  /** `0x000001a` reads as 0x1a: leading zeros do not count. */
  lemma PaddedAddress()
    ensures ParseHexAddr("0x000001a") == Some(0x1a)
  {
    assert "0x000001a" == "0x" + Zeros(5) + HexText(0x1a);
    ParsePaddedHexAddr(5, 0x1a);
  }

  /** An address the table holds once is found, with its line. */
  lemma LineIdFindsUnique(xs: seq<(u64, u64)>, addr: string, k: nat)
    requires Sorted(xs) && k < |xs| && ParseHexAddr(addr) == Some(xs[k].0)
    requires forall j | 0 <= j < |xs| && j != k :: xs[j].0 != xs[k].0
    ensures LineId(xs, addr) == Some(xs[k].1)
  {
    var r := LineId(xs, addr);
    var j :| 0 <= j < |xs| && xs[j] == (xs[k].0, r.value);
  }

  /** The lookup of `0x000001a` in the table [(0x1a, 2), (0x2b, 3), (0x12b, 5)] finds line 2. */
  lemma LineIdExample()
    ensures LineId([(0x1a, 2), (0x2b, 3), (0x12b, 5)], "0x000001a") == Some(2)
  {
    var xs: seq<(u64, u64)> := [(0x1a, 2), (0x2b, 3), (0x12b, 5)];
    PaddedAddress();
    assert Sorted(xs);
    LineIdFindsUnique(xs, "0x000001a", 0);
  }
}
