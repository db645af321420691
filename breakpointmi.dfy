/**
 * Breakpoint notifications: `=breakpoint-created`, `=breakpoint-modified` and
 * `=breakpoint-deleted` records turned into breakpoint actions. A breakpoint with one
 * location becomes a `Signal`; one with several (`addr="<MULTIPLE>"`) becomes a `Multiple`
 * whose children are its locations, given either inside a `locations=[...]` list (newer
 * MI dialect) or as bare tuples after the `bkpt` result (older dialect).
 */
module BreakpointMi {
  import opened Options
  import opened Numeric
  import opened Token
  import opened Fields

  datatype SignalSrc = SignalSrc(fullname: string, line: u64)

  /** `BreakPointSignalAction`: one location; `src` is the source position when known. */
  datatype SignalAction = SignalAction(number: string, enabled: bool, src: Option<SignalSrc>, addr: string)

  datatype MultipleAction = MultipleAction(number: string, enabled: bool, bps: seq<SignalAction>)

  datatype BreakPointAction = Signal(signal: SignalAction) | Multiple(multiple: MultipleAction)

  // ---------------------------------------------------------------- show_breakpoint_deleted

  /** `get_breakpoint_deleted`: an `id` constant that reads as a u64, else nothing. */
  function DeletedId(r: ResultType): Option<u64>
  {
    if r.variable == "id" && r.value.Const? then ParseU64(r.value.text) else None
  }

  /**
   * The deleted breakpoint a record announces: only a notify-async `breakpoint-deleted`
   * record announces one, and its last result alone decides which.
   */
  function DeletedSpec(a: OutOfBandRecord): Option<u64>
  {
    match a.record
    case NotifyAsync(out) =>
      if out.asyncClass == BreakpointDeleted && |out.results| > 0 then DeletedId(out.results[|out.results| - 1])
      else None
    case ExecAsync(_) => None
  }

  /** `show_breakpoint_deleted`: every result overwrites the answer. */
  method ShowBreakpointDeleted(a: OutOfBandRecord) returns (ret: Option<u64>)
    ensures ret == DeletedSpec(a)
  {
    ret := None;
    if a.record.NotifyAsync? && a.record.output.asyncClass == BreakpointDeleted {
      var rs := a.record.output.results;
      for i := 0 to |rs|
        invariant ret == if i == 0 then None else DeletedId(rs[i - 1])
      {
        ret := DeletedId(rs[i]);
      }
    }
  }

  /** `=breakpoint-deleted,...,id="n"` announces breakpoint n, whatever came before. */
  lemma DeletedAnnouncesId(rs: seq<ResultType>, vs: seq<ValueType>, n: u64)
    ensures DeletedSpec(AsyncRecord(NotifyAsync(AsyncOutput(BreakpointDeleted, rs + [ResultType("id", Const(DecimalText(n)))], vs)))) == Some(n)
  {
    ParseDecimalText(n);
  }

  /** A record announces a deletion only when it is a notify-async `breakpoint-deleted` whose last result is a numeric `id`. */
  lemma DeletedOnlyFromIdRecord(a: OutOfBandRecord)
    ensures DeletedSpec(a).Some? ==>
      a.record.NotifyAsync? && a.record.output.asyncClass == BreakpointDeleted && |a.record.output.results| > 0
      && var last := a.record.output.results[|a.record.output.results| - 1];
         last.variable == "id" && last.value.Const? && ParseU64(last.value.text) == DeletedSpec(a)
  {
  }

  // ---------------------------------------------------------------- get_from_signal_point

  /** The final match of `get_from_signal_point` over its five locals. */
  function SignalOf(addr: Option<string>, file: Option<string>, line: Option<u64>, number: Option<string>, enabled: Option<bool>): Option<SignalAction>
  {
    match (addr, file, line, number, enabled)
    case (Some(a), Some(f), Some(l), Some(n), Some(e)) => Some(SignalAction(n, e, Some(SignalSrc(f, l)), a))
    case (Some(a), _, _, Some(n), Some(e)) => Some(SignalAction(n, e, None, a))
    case _ => None
  }

  /**
   * The location a tuple describes: its last `addr`, `fullname`, `number` constants, its
   * last readable `line`, and the reading of its last `enabled`.
   */
  function SignalPointSpec(v: ValueType): Option<SignalAction>
  {
    var rs := TupleItems(v);
    SignalOf(LastConst(rs, "addr"), LastConst(rs, "fullname"), LastNumber(rs, "line"), LastConst(rs, "number"), LastEnabled(rs))
  }

  /** `get_from_signal_point`: one pass over the tuple's items, then the final match. */
  method GetFromSignalPoint(v: ValueType) returns (res: Option<SignalAction>)
    ensures res == SignalPointSpec(v)
  {
    var file: Option<string> := None;
    var line: Option<u64> := None;
    var number: Option<string> := None;
    var enabled: Option<bool> := None;
    var addr: Option<string> := None;
    var rs := TupleItems(v);
    for i := 0 to |rs|
      invariant file == LastConst(rs[..i], "fullname") && line == LastNumber(rs[..i], "line")
      invariant number == LastConst(rs[..i], "number") && enabled == LastEnabled(rs[..i])
      invariant addr == LastConst(rs[..i], "addr")
    {
      var r := rs[i];
      match r.variable {
        case "fullname" =>
          if r.value.Const? {
            file := Some(r.value.text);
          }
        case "line" =>
          if r.value.Const? {
            var l := ParseU64(r.value.text);
            if l.Some? {
              line := l;
            }
          }
        case "number" =>
          if r.value.Const? {
            number := Some(r.value.text);
          }
        case "enabled" =>
          enabled := EnabledFlag(r.value);
        case "addr" =>
          if r.value.Const? {
            addr := Some(r.value.text);
          }
        case _ =>
      }
      assert rs[..i + 1] == rs[..i] + [r];
      LastSelectedSnoc(rs[..i], r, ConstNamed("fullname"));
      LastSelectedSnoc(rs[..i], r, NumberNamed("line"));
      LastSelectedSnoc(rs[..i], r, ConstNamed("number"));
      LastSelectedSnoc(rs[..i], r, Named("enabled"));
      LastSelectedSnoc(rs[..i], r, ConstNamed("addr"));
    }
    assert rs[..|rs|] == rs;
    res := SignalOf(addr, file, line, number, enabled);
  }

  /**
   * A location is extracted exactly when it has an `addr`, a `number` and a readable
   * `enabled`; it then carries a source position exactly when it has both a `fullname`
   * and a readable `line`. `<MULTIPLE>` and `<PENDING>` are ordinary addresses here.
   */
  lemma SignalPointFields(v: ValueType)
    ensures var rs := TupleItems(v);
      SignalPointSpec(v).Some? <==> LastConst(rs, "addr").Some? && LastConst(rs, "number").Some? && LastEnabled(rs).Some?
    ensures var rs := TupleItems(v);
      SignalPointSpec(v).Some? ==>
        && SignalPointSpec(v).value.addr == LastConst(rs, "addr").value
        && SignalPointSpec(v).value.number == LastConst(rs, "number").value
        && SignalPointSpec(v).value.enabled == LastEnabled(rs).value
        && (SignalPointSpec(v).value.src.Some? <==> LastConst(rs, "fullname").Some? && LastNumber(rs, "line").Some?)
  {
  }

  /** The last `enabled` item decides: `"y"` is true, `"n"` false, anything else unknown. */
  lemma EnabledReading(rs: seq<ResultType>, v: ValueType)
    ensures LastEnabled(rs + [ResultType("enabled", v)]) ==
      if v == Const("y") then Some(true) else if v == Const("n") then Some(false) else None
  {
    LastSelectedSnoc(rs, ResultType("enabled", v), Named("enabled"));
  }

  // ---------------------------------------------------------------- get_from_bkpt

  /** The locations a sequence of tuples yields, in order, skipping those that give nothing. */
  function Kept(vs: seq<ValueType>): seq<SignalAction>
  {
    if |vs| == 0 then [] else Kept(vs[..|vs| - 1]) + KeptOne(vs[|vs| - 1])
  }

  /** What one tuple contributes: its location, if it reads as one. */
  function KeptOne(v: ValueType): seq<SignalAction>
  {
    match SignalPointSpec(v) case Some(p) => [p] case None => []
  }

  /** Every element of `Kept(vs)` is what some element of `vs` yields, and never more of them. */
  lemma {:induction false} KeptFromValues(vs: seq<ValueType>)
    ensures |Kept(vs)| <= |vs|
    ensures forall p | p in Kept(vs) :: exists v | v in vs :: SignalPointSpec(v) == Some(p)
    decreases |vs|
  {
    if |vs| > 0 {
      var init := vs[..|vs| - 1];
      KeptFromValues(init);
      forall p | p in Kept(vs) ensures exists v | v in vs :: SignalPointSpec(v) == Some(p) {
        if p in Kept(init) {
          var v :| v in init && SignalPointSpec(v) == Some(p);
          assert v in vs;
        } else {
          assert SignalPointSpec(vs[|vs| - 1]) == Some(p);
        }
      }
    }
  }

  lemma {:induction false} KeptAppend(a: seq<ValueType>, b: seq<ValueType>)
    ensures Kept(a + b) == Kept(a) + Kept(b)
    decreases |b|
  {
    if |b| == 0 {
      assert a + b == a;
    } else {
      var init, last := b[..|b| - 1], b[|b| - 1];
      assert (a + b)[..|a + b| - 1] == a + init;
      assert (a + b)[|a + b| - 1] == last;
      KeptAppend(a, init);
      calc {
        Kept(a + b);
        Kept(a + init) + KeptOne(last);
        (Kept(a) + Kept(init)) + KeptOne(last);
        Kept(a) + (Kept(init) + KeptOne(last));
        Kept(a) + Kept(b);
      }
    }
  }

  /** The children a `locations=[...]` item contributes. */
  function LocationItem(r: ResultType): seq<SignalAction>
  {
    if r.variable == "locations" && r.value.List? && r.value.list.ValueList? then Kept(r.value.list.values) else []
  }

  /** The children of all `locations` items, in order. */
  function LocationsOf(rs: seq<ResultType>): seq<SignalAction>
  {
    if |rs| == 0 then [] else LocationsOf(rs[..|rs| - 1]) + LocationItem(rs[|rs| - 1])
  }

  /** The final match of `get_from_bkpt` over its seven locals. */
  function BkptOf(addr: Option<string>, file: Option<string>, line: Option<u64>, number: Option<string>,
                  enabled: Option<bool>, multiple: bool, bps: seq<SignalAction>): Option<BreakPointAction>
  {
    match (addr, file, line, number, enabled, multiple)
    case (Some(a), Some(f), Some(l), Some(n), Some(e), false) => Some(Signal(SignalAction(n, e, Some(SignalSrc(f, l)), a)))
    case (Some(a), _, _, Some(n), Some(e), false) => Some(Signal(SignalAction(n, e, None, a)))
    case (_, None, None, Some(n), Some(e), true) => Some(Multiple(MultipleAction(n, e, bps)))
    case _ => None
  }

  /** The items of a `bkpt={...}` result; any other result has none. */
  function BkptItems(r: ResultType): seq<ResultType>
  {
    if r.variable == "bkpt" then TupleItems(r.value) else []
  }

  /** The text of the last ordinary `addr` constant (not `<MULTIPLE>`, not `<PENDING>`). */
  function LastPlainAddr(rs: seq<ResultType>): Option<string>
  {
    match LastSelected(rs, PlainAddr) case None => None case Some(r) => Some(r.value.text)
  }

  /** Whether some `addr` is `<MULTIPLE>` (the marker is never cleared once seen). */
  function HasMultiple(rs: seq<ResultType>): bool
  {
    LastSelected(rs, MultipleAddr).Some?
  }

  function BkptSpec(r: ResultType): Option<BreakPointAction>
  {
    var rs := BkptItems(r);
    BkptOf(LastPlainAddr(rs), LastConst(rs, "fullname"), LastNumber(rs, "line"), LastConst(rs, "number"),
           LastEnabled(rs), HasMultiple(rs), LocationsOf(rs))
  }

  /** Appends the locations the tuples yield to `bps`, in order (the `bps.push` loops). */
  method PushSignalPoints(bps: seq<SignalAction>, vs: seq<ValueType>) returns (res: seq<SignalAction>)
    ensures res == bps + Kept(vs)
  {
    res := bps;
    for j := 0 to |vs|
      invariant res == bps + Kept(vs[..j])
    {
      var p := GetFromSignalPoint(vs[j]);
      if p.Some? {
        res := res + [p.value];
      }
      assert vs[..j + 1][..j] == vs[..j];
    }
    assert vs[..|vs|] == vs;
  }

  /** `get_from_bkpt`: one pass over the `bkpt` tuple, then the final match. */
  method GetFromBkpt(r: ResultType) returns (res: Option<BreakPointAction>)
    ensures res == BkptSpec(r)
  {
    var file: Option<string> := None;
    var line: Option<u64> := None;
    var number: Option<string> := None;
    var enabled: Option<bool> := None;
    var multiple := false;
    var addr: Option<string> := None;
    var bps: seq<SignalAction> := [];
    var rs := BkptItems(r);
    for i := 0 to |rs|
      invariant file == LastConst(rs[..i], "fullname") && line == LastNumber(rs[..i], "line")
      invariant number == LastConst(rs[..i], "number") && enabled == LastEnabled(rs[..i])
      invariant addr == LastPlainAddr(rs[..i]) && multiple == HasMultiple(rs[..i])
      invariant bps == LocationsOf(rs[..i])
    {
      var item := rs[i];
      assert rs[..i + 1] == rs[..i] + [item];
      BkptScanStep(rs[..i], item);
      match item.variable {
        case "fullname" =>
          if item.value.Const? {
            file := Some(item.value.text);
          }
        case "line" =>
          if item.value.Const? {
            var l := ParseU64(item.value.text);
            if l.Some? {
              line := l;
            }
          }
        case "number" =>
          if item.value.Const? {
            number := Some(item.value.text);
          }
        case "enabled" =>
          enabled := EnabledFlag(item.value);
        case "addr" =>
          if item.value.Const? {
            match item.value.text {
              case "<MULTIPLE>" => multiple := true;
              case "<PENDING>" =>
              case _ => addr := Some(item.value.text);
            }
          }
        case "locations" =>
          if item.value.List? && item.value.list.ValueList? {
            bps := PushSignalPoints(bps, item.value.list.values);
          }
        case _ =>
      }
    }
    assert rs[..|rs|] == rs;
    res := BkptOf(addr, file, line, number, enabled, multiple, bps);
  }

  /** One item of the `bkpt` scan, stated on the declarative locals. */
  lemma BkptScanStep(rs: seq<ResultType>, x: ResultType)
    ensures LastConst(rs + [x], "fullname") == if x.variable == "fullname" && x.value.Const? then Some(x.value.text) else LastConst(rs, "fullname")
    ensures LastNumber(rs + [x], "line") ==
      if x.variable == "line" && x.value.Const? && ParseU64(x.value.text).Some? then ParseU64(x.value.text) else LastNumber(rs, "line")
    ensures LastConst(rs + [x], "number") == if x.variable == "number" && x.value.Const? then Some(x.value.text) else LastConst(rs, "number")
    ensures LastEnabled(rs + [x]) == if x.variable == "enabled" then EnabledFlag(x.value) else LastEnabled(rs)
    ensures LastPlainAddr(rs + [x]) == if Selects(PlainAddr, x) then Some(x.value.text) else LastPlainAddr(rs)
    ensures HasMultiple(rs + [x]) == (HasMultiple(rs) || Selects(MultipleAddr, x))
    ensures LocationsOf(rs + [x]) == LocationsOf(rs) + LocationItem(x)
  {
    LastSelectedSnoc(rs, x, ConstNamed("fullname"));
    LastSelectedSnoc(rs, x, NumberNamed("line"));
    LastSelectedSnoc(rs, x, ConstNamed("number"));
    LastSelectedSnoc(rs, x, Named("enabled"));
    LastSelectedSnoc(rs, x, PlainAddr);
    LastSelectedSnoc(rs, x, MultipleAddr);
    assert (rs + [x])[..|rs|] == rs;
  }

  /**
   * A `Signal` comes only from a `bkpt` without `<MULTIPLE>` that has an ordinary address,
   * a number and a readable `enabled`; its source position is present exactly when both
   * `fullname` and a readable `line` are.
   */
  lemma BkptSignal(r: ResultType)
    ensures var rs := BkptItems(r);
      BkptSpec(r).Some? && BkptSpec(r).value.Signal? <==>
        !HasMultiple(rs) && LastPlainAddr(rs).Some? && LastConst(rs, "number").Some? && LastEnabled(rs).Some?
    ensures var rs := BkptItems(r);
      BkptSpec(r).Some? && BkptSpec(r).value.Signal? ==>
        && BkptSpec(r).value.signal.addr == LastPlainAddr(rs).value
        && (BkptSpec(r).value.signal.src.Some? <==> LastConst(rs, "fullname").Some? && LastNumber(rs, "line").Some?)
  {
  }

  /**
   * A `Multiple` comes only from a `bkpt` with `<MULTIPLE>`, a number and a readable
   * `enabled`, and with neither `fullname` nor a readable `line` at the top level. It keeps
   * the parent's own number and `enabled`, whatever its children say; its children are
   * the `locations` entries in order.
   */
  lemma BkptMultiple(r: ResultType)
    ensures var rs := BkptItems(r);
      BkptSpec(r).Some? && BkptSpec(r).value.Multiple? <==>
        HasMultiple(rs) && LastConst(rs, "fullname").None? && LastNumber(rs, "line").None?
        && LastConst(rs, "number").Some? && LastEnabled(rs).Some?
    ensures var rs := BkptItems(r);
      BkptSpec(r).Some? && BkptSpec(r).value.Multiple? ==>
        BkptSpec(r).value.multiple == MultipleAction(LastConst(rs, "number").value, LastEnabled(rs).value, LocationsOf(rs))
  {
  }

  /** An address that is only ever `<PENDING>` (no ordinary address, no `<MULTIPLE>`) gives nothing. */
  lemma {:induction false} PendingGivesNothing(r: ResultType)
    requires forall k | 0 <= k < |BkptItems(r)| :: BkptItems(r)[k].variable == "addr" ==> BkptItems(r)[k].value == Const("<PENDING>")
    ensures BkptSpec(r) == None
  {
    var rs := BkptItems(r);
    LastSelectedIsLast(rs, PlainAddr);
    LastSelectedIsLast(rs, MultipleAddr);
  }

  /** A missing number, or an `enabled` that is neither `"y"` nor `"n"` as the last word, gives nothing. */
  lemma BkptNeedsNumberAndEnabled(r: ResultType)
    requires LastConst(BkptItems(r), "number").None? || LastEnabled(BkptItems(r)).None?
    ensures BkptSpec(r) == None
  {
  }

  // ---------------------------------------------------------------- show_bkpt

  /**
   * The breakpoint a record announces: only notify-async `breakpoint-created` and
   * `breakpoint-modified` records announce one; the last result decides it, and a
   * `Multiple` also takes the locations the record's bare tuples yield, after its own.
   */
  function ShowBkptSpec(a: OutOfBandRecord): Option<BreakPointAction>
  {
    match a.record
    case NotifyAsync(out) =>
      if (out.asyncClass == BreakpointCreated || out.asyncClass == BreakpointModified) && |out.results| > 0 then
        match BkptSpec(out.results[|out.results| - 1])
        case Some(Multiple(m)) => Some(Multiple(m.(bps := m.bps + Kept(out.values))))
        case other => other
      else None
    case ExecAsync(_) => None
  }

  /** `show_bkpt`: every result overwrites the answer; a `Multiple` answer then collects the bare tuples. */
  method ShowBkpt(a: OutOfBandRecord) returns (ret: Option<BreakPointAction>)
    ensures ret == ShowBkptSpec(a)
  {
    ret := None;
    if a.record.NotifyAsync? {
      var out := a.record.output;
      if out.asyncClass == BreakpointCreated || out.asyncClass == BreakpointModified {
        for i := 0 to |out.results|
          invariant ret == if i == 0 then None else BkptSpec(out.results[i - 1])
        {
          ret := GetFromBkpt(out.results[i]);
        }
        if ret.Some? && ret.value.Multiple? {
          var bp := ret.value.multiple;
          var bps := PushSignalPoints(bp.bps, out.values);
          ret := Some(Multiple(bp.(bps := bps)));
        }
      }
    }
  }

  /** The `bkpt` result of the newer dialect: the parent's items followed by `locations=[...]`. */
  function WithLocations(parent: seq<ResultType>, children: seq<ValueType>): ResultType
  {
    ResultType("bkpt", Tuple(TupleResults(parent + [ResultType("locations", List(ValueList(children)))])))
  }

  lemma {:induction false} NoLocations(rs: seq<ResultType>)
    requires forall k | 0 <= k < |rs| :: rs[k].variable != "locations"
    ensures LocationsOf(rs) == []
    decreases |rs|
  {
    if |rs| > 0 {
      NoLocations(rs[..|rs| - 1]);
    }
  }

  /**
   * The newer dialect's `bkpt` result gives what the same result without `locations`
   * gives, except that a `Multiple` takes the listed children.
   */
  lemma WithLocationsBkpt(parent: seq<ResultType>, children: seq<ValueType>)
    requires forall k | 0 <= k < |parent| :: parent[k].variable != "locations"
    ensures BkptSpec(WithLocations(parent, children)) == AddChildren(BkptSpec(ResultType("bkpt", Tuple(TupleResults(parent)))), children)
  {
    var loc := ResultType("locations", List(ValueList(children)));
    var rs := parent + [loc];
    assert BkptItems(WithLocations(parent, children)) == rs;
    assert BkptItems(ResultType("bkpt", Tuple(TupleResults(parent)))) == parent;
    BkptScanStep(parent, loc);
    NoLocations(parent);
    assert LocationsOf(rs) == Kept(children);
    BkptOfChildren(LastPlainAddr(parent), LastConst(parent, "fullname"), LastNumber(parent, "line"),
                   LastConst(parent, "number"), LastEnabled(parent), HasMultiple(parent), children);
  }

  /** Children taken during the scan are the children added afterwards. */
  lemma BkptOfChildren(addr: Option<string>, file: Option<string>, line: Option<u64>, number: Option<string>,
                       enabled: Option<bool>, multiple: bool, vs: seq<ValueType>)
    ensures BkptOf(addr, file, line, number, enabled, multiple, Kept(vs)) ==
            AddChildren(BkptOf(addr, file, line, number, enabled, multiple, []), vs)
  {
    assert [] + Kept(vs) == Kept(vs);
  }

  /** What a record with a single result announces. */
  function AddChildren(b: Option<BreakPointAction>, vs: seq<ValueType>): Option<BreakPointAction>
  {
    match b
    case Some(Multiple(m)) => Some(Multiple(m.(bps := m.bps + Kept(vs))))
    case other => other
  }

  lemma ShowBkptSingle(cls: AsyncClass, r: ResultType, vs: seq<ValueType>)
    ensures ShowBkptSpec(AsyncRecord(NotifyAsync(AsyncOutput(cls, [r], vs)))) ==
      if cls == BreakpointCreated || cls == BreakpointModified then AddChildren(BkptSpec(r), vs) else None
  {
  }

  /**
   * Both multi-location dialects give the same breakpoint: the children listed in
   * `locations=[...]` inside the `bkpt` tuple, and the same children as bare tuples after
   * a `bkpt` without `locations`, yield equal actions.
   */
  lemma DialectsAgree(cls: AsyncClass, parent: seq<ResultType>, children: seq<ValueType>)
    requires forall k | 0 <= k < |parent| :: parent[k].variable != "locations"
    ensures ShowBkptSpec(AsyncRecord(NotifyAsync(AsyncOutput(cls, [WithLocations(parent, children)], []))))
         == ShowBkptSpec(AsyncRecord(NotifyAsync(AsyncOutput(cls, [ResultType("bkpt", Tuple(TupleResults(parent)))], children))))
  {
    var mi3 := WithLocations(parent, children);
    var mi2 := ResultType("bkpt", Tuple(TupleResults(parent)));
    ShowBkptSingle(cls, mi3, []);
    ShowBkptSingle(cls, mi2, children);
    WithLocationsBkpt(parent, children);
    assert Kept([]) == [];
    assert AddChildren(BkptSpec(mi3), []) == AddChildren(BkptSpec(mi2), children) by {
      match BkptSpec(mi2)
      case Some(Multiple(m)) =>
        assert m.bps + Kept(children) + [] == m.bps + Kept(children);
      case other =>
    }
  }
}
