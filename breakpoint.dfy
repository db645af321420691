/**
 * `BreakPointData`: the breakpoints the code view keeps, converted from the breakpoint
 * actions the MI side announces, and keyed by breakpoint number.
 *
 * The conversions are written against the action shape this file is written for, where
 * a single location is either a source location or an address. The MI extractor builds a
 * single location as one record with an optional source part; `FromMi` bridges the two
 * shapes and is an assumption of this model (see the README).
 */
module Breakpoint {
  import opened Numeric
  import BreakpointMi

  /** A single breakpoint location as announced: at a source line, or at an address. */
  datatype SignalAction =
    | SrcAction(number: string, enabled: bool, fullname: string, line: u64)
    | AsmAction(number: string, enabled: bool, addr: string)

  datatype MultipleAction = MultipleAction(number: string, enabled: bool, bps: seq<SignalAction>)

  datatype Action = SignalAct(signal: SignalAction) | MultipleAct(multiple: MultipleAction)

  /** The stored forms. */
  datatype SignalData =
    | Src(number: string, enabled: bool, fullname: string, line: u64)
    | Asm(number: string, enabled: bool, addr: string)

  datatype MultipleData = MultipleData(number: string, enabled: bool, bps: seq<SignalData>)

  datatype BreakPointData = Signal(signal: SignalData) | Multiple(multiple: MultipleData)

  /** `From<&BreakPointSignalAction>`: a source location stays one, an address stays one. */
  function SignalFrom(a: SignalAction): (d: SignalData)
    ensures d.Src? <==> a.SrcAction?
    ensures d.number == a.number && d.enabled == a.enabled
    ensures d.Src? ==> d.fullname == a.fullname && d.line == a.line
    ensures d.Asm? ==> d.addr == a.addr
  {
    match a
    case SrcAction(number, enabled, fullname, line) => Src(number, enabled, fullname, line)
    case AsmAction(number, enabled, addr) => Asm(number, enabled, addr)
  }

  /** The children, converted one for one in order. */
  function SignalsFrom(bps: seq<SignalAction>): (ds: seq<SignalData>)
    ensures |ds| == |bps| && forall k | 0 <= k < |bps| :: ds[k] == SignalFrom(bps[k])
  {
    if |bps| == 0 then [] else SignalsFrom(bps[..|bps| - 1]) + [SignalFrom(bps[|bps| - 1])]
  }

  /** `From<&BreakPointMultipleAction>`: the parent's number and enabled flag, and its children. */
  function MultipleFrom(a: MultipleAction): (d: MultipleData)
    ensures d.number == a.number && d.enabled == a.enabled && |d.bps| == |a.bps|
  {
    MultipleData(a.number, a.enabled, SignalsFrom(a.bps))
  }

  /** `From<&BreakPointAction>`: the variant is kept. */
  function From(a: Action): (d: BreakPointData)
    ensures d.Signal? <==> a.SignalAct?
  {
    match a
    case SignalAct(s) => Signal(SignalFrom(s))
    case MultipleAct(m) => Multiple(MultipleFrom(m))
  }

  /** `get_key`: the breakpoint's own number; for several locations, the parent's. */
  function GetKey(d: BreakPointData): string
  {
    match d
    case Signal(s) => s.number
    case Multiple(m) => m.number
  }

  /** The stored form back as an announcement (a partner of `From`, not part of the source). */
  function SignalBack(d: SignalData): SignalAction
  {
    match d
    case Src(number, enabled, fullname, line) => SrcAction(number, enabled, fullname, line)
    case Asm(number, enabled, addr) => AsmAction(number, enabled, addr)
  }

  function SignalsBack(ds: seq<SignalData>): (bps: seq<SignalAction>)
    ensures |bps| == |ds| && forall k | 0 <= k < |ds| :: bps[k] == SignalBack(ds[k])
  {
    if |ds| == 0 then [] else SignalsBack(ds[..|ds| - 1]) + [SignalBack(ds[|ds| - 1])]
  }

  function Back(d: BreakPointData): Action
  {
    match d
    case Signal(s) => SignalAct(SignalBack(s))
    case Multiple(m) => MultipleAct(MultipleAction(m.number, m.enabled, SignalsBack(m.bps)))
  }

  /** The conversion loses nothing: every field of the announcement can be read back. */
  lemma FromLosesNothing(a: Action)
    ensures Back(From(a)) == a
  {
    if a.MultipleAct? {
      var bps := a.multiple.bps;
      var back := SignalsBack(SignalsFrom(bps));
      assert forall k | 0 <= k < |bps| :: back[k] == bps[k];
    }
  }

  /** The key of a converted breakpoint is the number it was announced with. */
  lemma KeyIsNumber(a: Action)
    ensures GetKey(From(a)) == (match a case SignalAct(s) => s.number case MultipleAct(m) => m.number)
  {
  }

  /** The children of a converted breakpoint with several locations do not change its key. */
  lemma KeyIgnoresChildren(m: MultipleAction, bps: seq<SignalAction>)
    ensures GetKey(From(MultipleAct(m))) == GetKey(From(MultipleAct(m.(bps := bps))))
  {
  }

  /**
   * ASSUMPTION bridging the MI extractor's single-location record to the announcement
   * shape above: a record with a source part is a source location, one without is an
   * address.
   */
  function SignalFromMi(s: BreakpointMi.SignalAction): (a: SignalAction)
    ensures a.number == s.number && a.enabled == s.enabled
    ensures a.SrcAction? <==> s.src.Some?
  {
    match s.src
    case Some(src) => SrcAction(s.number, s.enabled, src.fullname, src.line)
    case None => AsmAction(s.number, s.enabled, s.addr)
  }

  function SignalsFromMi(bps: seq<BreakpointMi.SignalAction>): (r: seq<SignalAction>)
    ensures |r| == |bps| && forall k | 0 <= k < |bps| :: r[k] == SignalFromMi(bps[k])
  {
    if |bps| == 0 then [] else SignalsFromMi(bps[..|bps| - 1]) + [SignalFromMi(bps[|bps| - 1])]
  }

  function FromMi(b: BreakpointMi.BreakPointAction): (a: Action)
    ensures a.SignalAct? <==> b.Signal?
  {
    match b
    case Signal(s) => SignalAct(SignalFromMi(s))
    case Multiple(m) => MultipleAct(MultipleAction(m.number, m.enabled, SignalsFromMi(m.bps)))
  }

  /** Under the bridge, the key is still the number the MI record carried. */
  lemma MiKeyIsNumber(b: BreakpointMi.BreakPointAction)
    ensures GetKey(From(FromMi(b))) == (match b case Signal(s) => s.number case Multiple(m) => m.number)
  {
  }
}
