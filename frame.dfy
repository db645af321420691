/**
 * `Frame` and its conversion from a `frame={...}` result: the stop location the debugger
 * reports, read field by field.
 */
module Frame {
  import opened Options
  import opened Numeric
  import opened Token
  import opened Fields

  datatype Frame = Frame(addr: string, func: Option<string>, fullname: Option<string>, line: Option<u64>)

  /** The frame with nothing read yet. */
  const EmptyFrame := Frame("", None, None, None)

  /**
   * The frame the items of a `frame` tuple describe: for each of `fullname`, `addr` and
   * `func` the last constant given, for `line` the last constant that reads as a u64;
   * `addr` is empty and the others absent when no such item exists.
   */
  function FrameOf(rs: seq<ResultType>): Frame
  {
    Frame(
      match LastConst(rs, "addr") case None => "" case Some(a) => a,
      LastConst(rs, "func"),
      LastConst(rs, "fullname"),
      LastNumber(rs, "line"))
  }

  /** The conversion's outcome: a frame for `frame={...}` with items, an error for anything else. */
  function FrameSpec(r: ResultType): Result<Frame>
  {
    if r.variable == "frame" && r.value.Tuple? && r.value.tuple.TupleResults? then Ok(FrameOf(r.value.tuple.results))
    else Err("not frame")
  }

  /** One item of the scan: the four recognised names overwrite their field, others change nothing. */
  function Absorb(ans: Frame, r: ResultType): Frame
  {
    match r.variable
    case "fullname" => if r.value.Const? then ans.(fullname := Some(r.value.text)) else ans
    case "line" =>
      if r.value.Const? && ParseU64(r.value.text).Some? then ans.(line := ParseU64(r.value.text)) else ans
    case "addr" => if r.value.Const? then ans.(addr := r.value.text) else ans
    case "func" => if r.value.Const? then ans.(func := Some(r.value.text)) else ans
    case _ => ans
  }

  lemma FrameOfSnoc(rs: seq<ResultType>, x: ResultType)
    ensures FrameOf(rs + [x]) == Absorb(FrameOf(rs), x)
  {
    LastSelectedSnoc(rs, x, ConstNamed("addr"));
    LastSelectedSnoc(rs, x, ConstNamed("func"));
    LastSelectedSnoc(rs, x, ConstNamed("fullname"));
    LastSelectedSnoc(rs, x, NumberNamed("line"));
  }

  /** `Frame::try_from`: scans the items in order, overwriting the frame's fields. */
  method TryFrom(r: ResultType) returns (res: Result<Frame>)
    ensures res == FrameSpec(r)
  {
    if r.variable == "frame" && r.value.Tuple? && r.value.tuple.TupleResults? {
      var rs := r.value.tuple.results;
      var ans := EmptyFrame;
      var i := 0;
      while i < |rs|
        invariant 0 <= i <= |rs|
        invariant ans == FrameOf(rs[..i])
      {
        var item := rs[i];
        match item.variable {
          case "fullname" =>
            if item.value.Const? {
              ans := ans.(fullname := Some(item.value.text));
            }
          case "line" =>
            if item.value.Const? {
              var l := ParseU64(item.value.text);
              if l.Some? {
                ans := ans.(line := l);
              }
            }
          case "addr" =>
            if item.value.Const? {
              ans := ans.(addr := item.value.text);
            }
          case "func" =>
            if item.value.Const? {
              ans := ans.(func := Some(item.value.text));
            }
          case _ =>
        }
        assert rs[..i + 1] == rs[..i] + [item];
        FrameOfSnoc(rs[..i], item);
        i := i + 1;
      }
      assert rs[..i] == rs;
      res := Ok(ans);
    } else {
      res := Err("not frame");
    }
  }

  /** The conversion succeeds exactly for a `frame` result holding a tuple of items; `frame={}` fails. */
  lemma FrameSpecOk(r: ResultType)
    ensures FrameSpec(r).Ok? <==> r.variable == "frame" && r.value.Tuple? && r.value.tuple.TupleResults?
    ensures FrameSpec(ResultType("frame", Tuple(EmptyTuple))).Err?
  {
  }

  /** A tuple with none of the four fields gives the defaults: empty `addr`, nothing else. */
  lemma {:induction false} FrameDefaults(rs: seq<ResultType>)
    requires forall k | 0 <= k < |rs| :: rs[k].variable !in {"fullname", "line", "addr", "func"}
    ensures FrameOf(rs) == EmptyFrame
    decreases |rs|
  {
    if |rs| > 0 {
      var init := rs[..|rs| - 1];
      assert rs == init + [rs[|rs| - 1]];
      FrameDefaults(init);
      FrameOfSnoc(init, rs[|rs| - 1]);
    }
  }

  /** Only `fullname`, `line`, `addr` and `func` are read: any other item can be dropped. */
  lemma FrameIgnoresOtherItems(a: seq<ResultType>, x: ResultType, b: seq<ResultType>)
    requires x.variable !in {"fullname", "line", "addr", "func"}
    ensures FrameOf(a + [x] + b) == FrameOf(a + b)
  {
    LastSelectedIgnores(a, x, b, ConstNamed("addr"));
    LastSelectedIgnores(a, x, b, ConstNamed("func"));
    LastSelectedIgnores(a, x, b, ConstNamed("fullname"));
    LastSelectedIgnores(a, x, b, NumberNamed("line"));
  }

  /**
   * When a field is given more than once the last occurrence wins: appending a constant
   * `fullname`, `addr` or `func`, or a `line` that reads as a number, sets that field
   * and leaves the others; an unreadable `line` changes nothing.
   */
  lemma FrameLastWins(rs: seq<ResultType>, text: string)
    ensures FrameOf(rs + [ResultType("fullname", Const(text))]) == FrameOf(rs).(fullname := Some(text))
    ensures FrameOf(rs + [ResultType("addr", Const(text))]) == FrameOf(rs).(addr := text)
    ensures FrameOf(rs + [ResultType("func", Const(text))]) == FrameOf(rs).(func := Some(text))
    ensures FrameOf(rs + [ResultType("line", Const(text))]) ==
      if ParseU64(text).Some? then FrameOf(rs).(line := ParseU64(text)) else FrameOf(rs)
  {
    FrameOfSnoc(rs, ResultType("fullname", Const(text)));
    FrameOfSnoc(rs, ResultType("addr", Const(text)));
    FrameOfSnoc(rs, ResultType("func", Const(text)));
    FrameOfSnoc(rs, ResultType("line", Const(text)));
  }

  /** `line` is present only when some `line` item's text reads as a u64, and then it is that reading. */
  lemma FrameLineReads(rs: seq<ResultType>)
    ensures FrameOf(rs).line.Some? ==>
      exists j | 0 <= j < |rs| :: rs[j].variable == "line" && rs[j].value.Const? && ParseU64(rs[j].value.text) == FrameOf(rs).line
  {
    LastNumberReads(rs, "line");
  }
}
