/**
 * The GDB/MI record and value tree, and the reader of one MI output line into it.
 *
 * The tree is the union of the shapes the extractors use: the class set includes the
 * breakpoint notifications, an async output carries the bare `values` of the older
 * multi-location dialect, and result records (`^done,...`) sit beside out-of-band ones.
 * The reader is a recursive-descent statement of the grammar as its tests pin it down:
 * C-strings keep every character between the quotes (escapes are not interpreted),
 * `{}` and `[]` are the empty tuple and list, a list of `name=value` items is a result
 * list and a list of bare values a value list, records start with `=`, `*` or `^` and
 * end with `\n` or `\r\n`. Its partner is the printer below: reading what the printer
 * writes gives back the tree it was written from.
 */
module Token {
  import opened Options

  // ---------------------------------------------------------------- the value tree

  datatype ValueType = Const(text: string) | Tuple(tuple: TupleType) | List(list: ListType)

  datatype ResultType = ResultType(variable: string, value: ValueType)

  datatype TupleType = EmptyTuple | TupleResults(results: seq<ResultType>)

  /** `List::None`, `List::ResultList`, and `List::ValueList` (called `List::Values` by the extractors). */
  datatype ListType = EmptyList | ResultList(results: seq<ResultType>) | ValueList(values: seq<ValueType>)

  datatype AsyncClass =
    | Stopped
    | Running
    | ThreadSelected
    | BreakpointCreated
    | BreakpointModified
    | BreakpointDeleted
    | UnknownClass(name: string)

  /** `resaults` are the `name=value` items after the class, `values` the bare ones. */
  datatype AsyncOutput = AsyncOutput(asyncClass: AsyncClass, results: seq<ResultType>, values: seq<ValueType>)

  datatype AsyncRecordType = NotifyAsync(output: AsyncOutput) | ExecAsync(output: AsyncOutput)

  datatype OutOfBandRecord = AsyncRecord(record: AsyncRecordType)

  datatype ResultClass = Done | OtherResultClass(name: string)

  datatype ResultRecord = ResultRecord(resultClass: ResultClass, results: seq<ResultType>)

  datatype OutputOneline = OutOfBand(oob: OutOfBandRecord) | ResultLine(result: ResultRecord)

  // ---------------------------------------------------------------- vec_string_to_string

  /** `vec_string_to_string`: a left fold that appends each string to the accumulator. */
  function VecStringToString(ss: seq<string>): string
  {
    if |ss| == 0 then "" else VecStringToString(ss[..|ss| - 1]) + ss[|ss| - 1]
  }

  /** The fold distributes over appending lists of strings. */
  lemma {:induction false} VecStringToStringAppend(a: seq<string>, b: seq<string>)
    ensures VecStringToString(a + b) == VecStringToString(a) + VecStringToString(b)
    decreases |b|
  {
    if |b| == 0 {
      assert a + b == a;
    } else {
      var ab := a + b;
      assert ab[..|ab| - 1] == a + b[..|b| - 1];
      VecStringToStringAppend(a, b[..|b| - 1]);
    }
  }

  /** So the result is the first string followed by the concatenation of the rest, in order. */
  lemma VecStringToStringCons(s: string, rest: seq<string>)
    ensures VecStringToString([s] + rest) == s + VecStringToString(rest)
  {
    VecStringToStringAppend([s], rest);
    assert VecStringToString([s]) == VecStringToString([]) + s;
  }

  // ---------------------------------------------------------------- lexical classes

  /** Characters of a variable or class name. */
  predicate IsIdentChar(c: char)
  {
    ('a' <= c <= 'z') || ('A' <= c <= 'Z') || ('0' <= c <= '9') || c == '-' || c == '_'
  }

  predicate IsIdent(s: string)
  {
    |s| > 0 && forall i | 0 <= i < |s| :: IsIdentChar(s[i])
  }

  predicate StartsValue(c: char) { c == '"' || c == '{' || c == '[' }

  /** Length of the longest prefix of name characters. */
  function IdentLen(s: string): (n: nat)
    ensures n <= |s|
  {
    if |s| > 0 && IsIdentChar(s[0]) then 1 + IdentLen(s[1..]) else 0
  }

  lemma {:induction false} IdentLenOf(name: string, rest: string)
    requires forall i | 0 <= i < |name| :: IsIdentChar(name[i])
    requires |rest| == 0 || !IsIdentChar(rest[0])
    ensures IdentLen(name + rest) == |name|
    decreases |name|
  {
    if |name| > 0 {
      assert (name + rest)[1..] == name[1..] + rest;
      IdentLenOf(name[1..], rest);
    } else {
      assert name + rest == rest;
    }
  }

  function ParseIdent(s: string): (r: Option<(string, string)>)
    ensures r.Some? ==> |r.value.0| > 0 && r.value.0 + r.value.1 == s
  {
    var n := IdentLen(s);
    if n == 0 then None else (assert s[..n] + s[n..] == s; Some((s[..n], s[n..])))
  }

  // ---------------------------------------------------------------- C-strings

  /**
   * The characters of a C-string after the opening quote, up to the closing quote, which
   * is consumed. A backslash keeps itself and the character after it (so `\"` does not end
   * the string); no escape is interpreted.
   */
  function ParseCStringBody(s: string): (r: Option<(string, string)>)
    ensures r.Some? ==> |r.value.1| < |s|
    decreases |s|
  {
    if |s| == 0 then None
    else if s[0] == '"' then Some(("", s[1..]))
    else if s[0] == '\\' then
      if |s| < 2 then None
      else match ParseCStringBody(s[2..])
        case None => None
        case Some((b, rest)) => Some((s[..2] + b, rest))
    else match ParseCStringBody(s[1..])
      case None => None
      case Some((b, rest)) => Some(([s[0]] + b, rest))
  }

  function ParseCString(s: string): (r: Option<(string, string)>)
    ensures r.Some? ==> |r.value.1| < |s|
  {
    if |s| > 0 && s[0] == '"' then ParseCStringBody(s[1..]) else None
  }

  /** A text that can stand between the quotes: no bare `"`, every `\` followed by a character. */
  predicate CStringBodyOk(b: string)
    decreases |b|
  {
    if |b| == 0 then true
    else if b[0] == '"' then false
    else if b[0] == '\\' then |b| >= 2 && CStringBodyOk(b[2..])
    else CStringBodyOk(b[1..])
  }

  /** Reading a well-formed body followed by the closing quote gives the body back verbatim. */
  lemma {:induction false} CStringBodyRoundTrip(b: string, t: string)
    requires CStringBodyOk(b)
    ensures ParseCStringBody(b + "\"" + t) == Some((b, t))
    decreases |b|
  {
    var s := b + "\"" + t;
    if |b| == 0 {
      assert s == "\"" + t;
    } else if b[0] == '\\' {
      assert s[2..] == b[2..] + "\"" + t;
      CStringBodyRoundTrip(b[2..], t);
      assert s[..2] + b[2..] == b;
    } else {
      assert s[1..] == b[1..] + "\"" + t;
      CStringBodyRoundTrip(b[1..], t);
      assert [s[0]] + b[1..] == b;
    }
  }

  /** Conversely, whatever the reader accepts is a well-formed body followed by the quote. */
  lemma {:induction false} CStringBodyExact(s: string)
    requires ParseCStringBody(s).Some?
    ensures CStringBodyOk(ParseCStringBody(s).value.0)
    ensures s == ParseCStringBody(s).value.0 + "\"" + ParseCStringBody(s).value.1
    decreases |s|
  {
    var b := ParseCStringBody(s).value.0;
    if s[0] == '"' {
      assert b == "";
    } else if s[0] == '\\' {
      CStringBodyExact(s[2..]);
      assert b[2..] == ParseCStringBody(s[2..]).value.0;
    } else {
      CStringBodyExact(s[1..]);
      assert b[1..] == ParseCStringBody(s[1..]).value.0;
    }
  }

  /**
   * A quoted C-string is read as exactly the characters between the outer quotes precisely
   * when those characters form a well-formed body.
   */
  lemma CStringBetweenQuotes(b: string)
    ensures ParseCString("\"" + b + "\"") == Some((b, "")) <==> CStringBodyOk(b)
  {
    var s := "\"" + b + "\"";
    assert s[1..] == b + "\"" + "";
    if CStringBodyOk(b) {
      CStringBodyRoundTrip(b, "");
    } else if ParseCStringBody(s[1..]).Some? {
      CStringBodyExact(s[1..]);
    }
  }

  /** A body with no `"` and no `\` at all (any script, tabs, CR, LF) is always well formed. */
  lemma {:induction false} PlainTextIsBody(b: string)
    requires forall i | 0 <= i < |b| :: b[i] != '"' && b[i] != '\\'
    ensures CStringBodyOk(b)
    decreases |b|
  {
    if |b| > 0 {
      PlainTextIsBody(b[1..]);
    }
  }

  /** An escape pair `\c` is kept as two characters whatever `c` is, even a quote. */
  lemma EscapePairKept(c: char, b: string)
    ensures CStringBodyOk(['\\', c] + b) == CStringBodyOk(b)
  {
    assert (['\\', c] + b)[2..] == b;
  }

  // ---------------------------------------------------------------- values

  function ParseValue(s: string): (r: Option<(ValueType, string)>)
    ensures r.Some? ==> |r.value.1| < |s|
    decreases |s|, 2
  {
    if |s| == 0 then None
    else if s[0] == '"' then
      match ParseCString(s)
      case None => None
      case Some((c, rest)) => Some((Const(c), rest))
    else if s[0] == '{' then
      match ParseTuple(s)
      case None => None
      case Some((t, rest)) => Some((Tuple(t), rest))
    else if s[0] == '[' then
      match ParseList(s)
      case None => None
      case Some((l, rest)) => Some((List(l), rest))
    else None
  }

  function ParseTuple(s: string): (r: Option<(TupleType, string)>)
    ensures r.Some? ==> |r.value.1| < |s|
    decreases |s|, 1
  {
    if |s| < 2 || s[0] != '{' then None
    else if s[1] == '}' then Some((EmptyTuple, s[2..]))
    else match ParseResults(s[1..])
      case None => None
      case Some((rs, rest)) =>
        if |rest| > 0 && rest[0] == '}' then Some((TupleResults(rs), rest[1..])) else None
  }

  function ParseList(s: string): (r: Option<(ListType, string)>)
    ensures r.Some? ==> |r.value.1| < |s|
    decreases |s|, 1
  {
    if |s| < 2 || s[0] != '[' then None
    else if s[1] == ']' then Some((EmptyList, s[2..]))
    else if StartsValue(s[1]) then
      match ParseValues(s[1..])
      case None => None
      case Some((vs, rest)) =>
        if |rest| > 0 && rest[0] == ']' then Some((ValueList(vs), rest[1..])) else None
    else
      match ParseResults(s[1..])
      case None => None
      case Some((rs, rest)) =>
        if |rest| > 0 && rest[0] == ']' then Some((ResultList(rs), rest[1..])) else None
  }

  function ParseResult(s: string): (r: Option<(ResultType, string)>)
    ensures r.Some? ==> |r.value.1| < |s|
    decreases |s|, 2
  {
    match ParseIdent(s)
    case None => None
    case Some((name, rest)) =>
      if |rest| > 0 && rest[0] == '=' then
        match ParseValue(rest[1..])
        case None => None
        case Some((v, rest2)) => Some((ResultType(name, v), rest2))
      else None
  }

  /** One or more results separated by commas. */
  function ParseResults(s: string): (r: Option<(seq<ResultType>, string)>)
    ensures r.Some? ==> |r.value.1| < |s|
    decreases |s|, 3
  {
    match ParseResult(s)
    case None => None
    case Some((r, rest)) =>
      if |rest| > 0 && rest[0] == ',' then
        match ParseResults(rest[1..])
        case None => None
        case Some((rs, rest2)) => Some(([r] + rs, rest2))
      else Some(([r], rest))
  }

  /** One or more values separated by commas. */
  function ParseValues(s: string): (r: Option<(seq<ValueType>, string)>)
    ensures r.Some? ==> |r.value.1| < |s|
    decreases |s|, 3
  {
    match ParseValue(s)
    case None => None
    case Some((v, rest)) =>
      if |rest| > 0 && rest[0] == ',' then
        match ParseValues(rest[1..])
        case None => None
        case Some((vs, rest2)) => Some(([v] + vs, rest2))
      else Some(([v], rest))
  }

  // ---------------------------------------------------------------- records

  function AsyncClassOf(name: string): AsyncClass
  {
    match name
    case "stopped" => Stopped
    case "running" => Running
    case "thread-selected" => ThreadSelected
    case "breakpoint-created" => BreakpointCreated
    case "breakpoint-modified" => BreakpointModified
    case "breakpoint-deleted" => BreakpointDeleted
    case _ => UnknownClass(name)
  }

  function ResultClassOf(name: string): ResultClass
  {
    if name == "done" then Done else OtherResultClass(name)
  }

  /**
   * The items after a record's class: each `,` is followed by a result or by a bare value;
   * results and values are collected separately, each in order.
   */
  function ParseItems(s: string): (r: Option<(seq<ResultType>, seq<ValueType>, string)>)
    decreases |s|
  {
    if |s| == 0 || s[0] != ',' then Some(([], [], s))
    else if |s| > 1 && StartsValue(s[1]) then
      match ParseValue(s[1..])
      case None => None
      case Some((v, rest)) =>
        match ParseItems(rest)
        case None => None
        case Some((rs, vs, rest2)) => Some((rs, [v] + vs, rest2))
    else
      match ParseResult(s[1..])
      case None => None
      case Some((r, rest)) =>
        match ParseItems(rest)
        case None => None
        case Some((rs, vs, rest2)) => Some(([r] + rs, vs, rest2))
  }

  predicate IsLineEnd(s: string) { s == "\n" || s == "\r\n" }

  /**
   * One MI output line, terminator included: `=class,...` is a notify-async record,
   * `*class,...` an exec-async record, `^class,...` a result record (results only).
   * Anything else is a parse error (`None`).
   */
  function ParseOutputOneline(s: string): (r: Option<OutputOneline>)
    ensures r.Some? ==> |s| > 0 && (s[0] == '=' || s[0] == '*' || s[0] == '^')
    ensures r.Some? && r.value.OutOfBand? ==> (r.value.oob.record.NotifyAsync? <==> s[0] == '=')
    ensures r.Some? && r.value.OutOfBand? ==> (r.value.oob.record.ExecAsync? <==> s[0] == '*')
    ensures r.Some? ==> (r.value.ResultLine? <==> s[0] == '^')
  {
    if |s| == 0 || !(s[0] == '=' || s[0] == '*' || s[0] == '^') then None
    else
      match ParseIdent(s[1..])
      case None => None
      case Some((cls, rest)) =>
        match ParseItems(rest)
        case None => None
        case Some((rs, vs, tail)) =>
          if !IsLineEnd(tail) then None
          else
            if s[0] == '^' then
              if |vs| == 0 then Some(ResultLine(ResultRecord(ResultClassOf(cls), rs))) else None
            else
              var out := AsyncOutput(AsyncClassOf(cls), rs, vs);
              Some(OutOfBand(AsyncRecord(if s[0] == '=' then NotifyAsync(out) else ExecAsync(out))))
  }

  // ---------------------------------------------------------------- the printer (partner)

  function PrintValue(v: ValueType): (s: string)
    decreases v, 1
  {
    match v
    case Const(c) => "\"" + c + "\""
    case Tuple(EmptyTuple) => "{}"
    case Tuple(TupleResults(rs)) => "{" + PrintResults(rs) + "}"
    case List(EmptyList) => "[]"
    case List(ResultList(rs)) => "[" + PrintResults(rs) + "]"
    case List(ValueList(vs)) => "[" + PrintValues(vs) + "]"
  }

  function PrintResult(r: ResultType): string
    decreases r, 1
  {
    r.variable + "=" + PrintValue(r.value)
  }

  function PrintResults(rs: seq<ResultType>): string
    decreases rs, 0
  {
    if |rs| == 0 then ""
    else if |rs| == 1 then PrintResult(rs[0])
    else PrintResult(rs[0]) + "," + PrintResults(rs[1..])
  }

  function PrintValues(vs: seq<ValueType>): string
    decreases vs, 0
  {
    if |vs| == 0 then ""
    else if |vs| == 1 then PrintValue(vs[0])
    else PrintValue(vs[0]) + "," + PrintValues(vs[1..])
  }

  /**
   * The trees the MI syntax can express: names are identifiers, constants are well-formed
   * C-string bodies, and a non-empty tuple or list really has elements (`{}`/`[]` are the
   * empty variants).
   */
  predicate WfValue(v: ValueType)
    decreases v, 1
  {
    match v
    case Const(c) => CStringBodyOk(c)
    case Tuple(EmptyTuple) => true
    case Tuple(TupleResults(rs)) => |rs| > 0 && WfResults(rs)
    case List(EmptyList) => true
    case List(ResultList(rs)) => |rs| > 0 && WfResults(rs)
    case List(ValueList(vs)) => |vs| > 0 && WfValues(vs)
  }

  predicate WfResult(r: ResultType)
    decreases r, 1
  {
    IsIdent(r.variable) && WfValue(r.value)
  }

  predicate WfResults(rs: seq<ResultType>)
    decreases rs, 0
  {
    |rs| == 0 || (WfResult(rs[0]) && WfResults(rs[1..]))
  }

  predicate WfValues(vs: seq<ValueType>)
    decreases vs, 0
  {
    |vs| == 0 || (WfValue(vs[0]) && WfValues(vs[1..]))
  }

  lemma PrintValueStart(v: ValueType)
    ensures |PrintValue(v)| > 0 && StartsValue(PrintValue(v)[0])
  {
  }

  lemma PrintResultStart(r: ResultType)
    requires IsIdent(r.variable)
    ensures |PrintResult(r)| > 0 && !StartsValue(PrintResult(r)[0])
  {
    assert PrintResult(r)[0] == r.variable[0];
  }

  lemma PrintResultsStart(rs: seq<ResultType>)
    requires |rs| > 0 && WfResults(rs)
    ensures IsIdent(rs[0].variable)
    ensures |PrintResults(rs)| > 0 && PrintResults(rs)[0] == rs[0].variable[0]
  {
    assert WfResult(rs[0]);
  }

  lemma PrintValuesStart(vs: seq<ValueType>)
    requires |vs| > 0
    ensures |PrintValues(vs)| > 0 && StartsValue(PrintValues(vs)[0])
  {
    PrintValueStart(vs[0]);
  }

  /** Reading a printed value, whatever follows it, gives the value back and stops right after it. */
  lemma {:induction false} ValueRoundTrip(v: ValueType, t: string)
    requires WfValue(v)
    ensures ParseValue(PrintValue(v) + t) == Some((v, t))
    decreases v, 1
  {
    var s := PrintValue(v) + t;
    match v
    case Const(c) =>
      assert s[1..] == c + "\"" + t;
      CStringBodyRoundTrip(c, t);
    case Tuple(EmptyTuple) =>
      assert s[2..] == t;
    case Tuple(TupleResults(rs)) =>
      TupleResultsRoundTrip(rs, t);
    case List(EmptyList) =>
      assert s[2..] == t;
    case List(ResultList(rs)) =>
      ResultListRoundTrip(rs, t);
    case List(ValueList(vs)) =>
      ValueListRoundTrip(vs, t);
  }

  lemma {:induction false} TupleResultsRoundTrip(rs: seq<ResultType>, t: string)
    requires |rs| > 0 && WfResults(rs)
    ensures ParseTuple(PrintValue(Tuple(TupleResults(rs))) + t) == Some((TupleResults(rs), t))
    decreases rs, 1
  {
    var s := PrintValue(Tuple(TupleResults(rs))) + t;
    PrintResultsStart(rs);
    assert s[1..] == PrintResults(rs) + ("}" + t);
    ResultsRoundTrip(rs, "}" + t);
  }

  lemma {:induction false} ResultListRoundTrip(rs: seq<ResultType>, t: string)
    requires |rs| > 0 && WfResults(rs)
    ensures ParseList(PrintValue(List(ResultList(rs))) + t) == Some((ResultList(rs), t))
    decreases rs, 1
  {
    var s := PrintValue(List(ResultList(rs))) + t;
    PrintResultsStart(rs);
    assert s[1..] == PrintResults(rs) + ("]" + t);
    ResultsRoundTrip(rs, "]" + t);
  }

  lemma {:induction false} ValueListRoundTrip(vs: seq<ValueType>, t: string)
    requires |vs| > 0 && WfValues(vs)
    ensures ParseList(PrintValue(List(ValueList(vs))) + t) == Some((ValueList(vs), t))
    decreases vs, 1
  {
    var s := PrintValue(List(ValueList(vs))) + t;
    PrintValuesStart(vs);
    assert s[1..] == PrintValues(vs) + ("]" + t);
    ValuesRoundTrip(vs, "]" + t);
  }

  lemma {:induction false} ResultRoundTrip(r: ResultType, t: string)
    requires WfResult(r)
    ensures ParseResult(PrintResult(r) + t) == Some((r, t))
    decreases r, 1
  {
    var s := PrintResult(r) + t;
    var after := "=" + PrintValue(r.value) + t;
    assert s == r.variable + after;
    IdentLenOf(r.variable, after);
    assert ParseIdent(s) == Some((r.variable, after));
    assert after[1..] == PrintValue(r.value) + t;
    ValueRoundTrip(r.value, t);
  }

  lemma {:induction false} ResultsRoundTrip(rs: seq<ResultType>, t: string)
    requires |rs| > 0 && WfResults(rs)
    requires |t| == 0 || t[0] != ','
    ensures ParseResults(PrintResults(rs) + t) == Some((rs, t))
    decreases rs, 0
  {
    var s := PrintResults(rs) + t;
    if |rs| == 1 {
      ResultRoundTrip(rs[0], t);
      assert [rs[0]] == rs;
    } else {
      var tail := "," + PrintResults(rs[1..]) + t;
      assert ParseResult(s) == Some((rs[0], tail)) by {
        assert s == PrintResult(rs[0]) + tail;
        ResultRoundTrip(rs[0], tail);
      }
      assert ParseResults(tail[1..]) == Some((rs[1..], t)) by {
        assert tail[1..] == PrintResults(rs[1..]) + t;
        ResultsRoundTrip(rs[1..], t);
      }
      assert [rs[0]] + rs[1..] == rs;
    }
  }

  lemma {:induction false} ValuesRoundTrip(vs: seq<ValueType>, t: string)
    requires |vs| > 0 && WfValues(vs)
    requires |t| == 0 || t[0] != ','
    ensures ParseValues(PrintValues(vs) + t) == Some((vs, t))
    decreases vs, 0
  {
    var s := PrintValues(vs) + t;
    if |vs| == 1 {
      ValueRoundTrip(vs[0], t);
      assert [vs[0]] == vs;
    } else {
      var tail := "," + PrintValues(vs[1..]) + t;
      assert ParseValue(s) == Some((vs[0], tail)) by {
        assert s == PrintValue(vs[0]) + tail;
        ValueRoundTrip(vs[0], tail);
      }
      assert ParseValues(tail[1..]) == Some((vs[1..], t)) by {
        assert tail[1..] == PrintValues(vs[1..]) + t;
        ValuesRoundTrip(vs[1..], t);
      }
      assert [vs[0]] + vs[1..] == vs;
    }
  }

  // ---------------------------------------------------------------- printing records

  function AsyncClassName(c: AsyncClass): string
  {
    match c
    case Stopped => "stopped"
    case Running => "running"
    case ThreadSelected => "thread-selected"
    case BreakpointCreated => "breakpoint-created"
    case BreakpointModified => "breakpoint-modified"
    case BreakpointDeleted => "breakpoint-deleted"
    case UnknownClass(name) => name
  }

  function ResultClassName(c: ResultClass): string
  {
    match c
    case Done => "done"
    case OtherResultClass(name) => name
  }

  /** `,r1,...,rn` followed by `,v1,...,vm`. */
  function PrintItems(rs: seq<ResultType>, vs: seq<ValueType>): string
    decreases |rs| + |vs|
  {
    if |rs| > 0 then "," + PrintResult(rs[0]) + PrintItems(rs[1..], vs)
    else if |vs| > 0 then "," + PrintValue(vs[0]) + PrintItems(rs, vs[1..])
    else ""
  }

  function PrintLine(o: OutputOneline): string
  {
    match o
    case OutOfBand(AsyncRecord(NotifyAsync(out))) =>
      "=" + AsyncClassName(out.asyncClass) + PrintItems(out.results, out.values)
    case OutOfBand(AsyncRecord(ExecAsync(out))) =>
      "*" + AsyncClassName(out.asyncClass) + PrintItems(out.results, out.values)
    case ResultLine(r) =>
      "^" + ResultClassName(r.resultClass) + PrintItems(r.results, [])
  }

  predicate WfAsyncClass(c: AsyncClass)
  {
    c.UnknownClass? ==> IsIdent(c.name) && AsyncClassOf(c.name) == c
  }

  predicate WfOutput(out: AsyncOutput)
  {
    WfAsyncClass(out.asyncClass) && WfResults(out.results) && WfValues(out.values)
  }

  predicate WfLine(o: OutputOneline)
  {
    match o
    case OutOfBand(AsyncRecord(a)) => WfOutput(a.output)
    case ResultLine(r) =>
      (r.resultClass.OtherResultClass? ==> IsIdent(r.resultClass.name) && r.resultClass.name != "done")
      && WfResults(r.results)
  }

  /** One unfolding of the item reader at a result item. */
  lemma ItemsResultStep(s: string, r: ResultType, rest: string, rs: seq<ResultType>, vs: seq<ValueType>, t: string)
    requires |s| > 1 && s[0] == ',' && !StartsValue(s[1])
    requires ParseResult(s[1..]) == Some((r, rest)) && ParseItems(rest) == Some((rs, vs, t))
    ensures ParseItems(s) == Some(([r] + rs, vs, t))
  {
  }

  /** One unfolding of the item reader at a bare value item. */
  lemma ItemsValueStep(s: string, v: ValueType, rest: string, rs: seq<ResultType>, vs: seq<ValueType>, t: string)
    requires |s| > 1 && s[0] == ',' && StartsValue(s[1])
    requires ParseValue(s[1..]) == Some((v, rest)) && ParseItems(rest) == Some((rs, vs, t))
    ensures ParseItems(s) == Some((rs, [v] + vs, t))
  {
  }

  lemma {:induction false} ItemsRoundTrip(rs: seq<ResultType>, vs: seq<ValueType>, t: string)
    requires WfResults(rs) && WfValues(vs)
    requires |t| == 0 || t[0] != ','
    ensures ParseItems(PrintItems(rs, vs) + t) == Some((rs, vs, t))
    decreases |rs| + |vs|, 1
  {
    if |rs| > 0 {
      ResultItemRoundTrip(rs, vs, t);
    } else if |vs| > 0 {
      ValueItemRoundTrip(vs, t);
    } else {
      assert PrintItems(rs, vs) + t == t;
    }
  }

  lemma {:induction false} ResultItemRoundTrip(rs: seq<ResultType>, vs: seq<ValueType>, t: string)
    requires |rs| > 0 && WfResults(rs) && WfValues(vs)
    requires |t| == 0 || t[0] != ','
    ensures ParseItems(PrintItems(rs, vs) + t) == Some((rs, vs, t))
    decreases |rs| + |vs|, 0
  {
    var s := PrintItems(rs, vs) + t;
    var rest := PrintItems(rs[1..], vs) + t;
    assert WfResult(rs[0]) && WfResults(rs[1..]);
    ItemsResultShape(rs, vs, t);
    ResultRoundTrip(rs[0], rest);
    ItemsRoundTrip(rs[1..], vs, t);
    ItemsResultStep(s, rs[0], rest, rs[1..], vs, t);
    assert [rs[0]] + rs[1..] == rs;
  }

  lemma ItemsResultShape(rs: seq<ResultType>, vs: seq<ValueType>, t: string)
    requires |rs| > 0 && IsIdent(rs[0].variable)
    ensures |PrintItems(rs, vs) + t| > 1 && (PrintItems(rs, vs) + t)[0] == ','
    ensures !StartsValue((PrintItems(rs, vs) + t)[1])
    ensures (PrintItems(rs, vs) + t)[1..] == PrintResult(rs[0]) + (PrintItems(rs[1..], vs) + t)
  {
    var rest := PrintItems(rs[1..], vs) + t;
    assert PrintItems(rs, vs) + t == "," + (PrintResult(rs[0]) + rest);
    PrintResultStart(rs[0]);
  }

  lemma {:induction false} ValueItemRoundTrip(vs: seq<ValueType>, t: string)
    requires |vs| > 0 && WfValues(vs)
    requires |t| == 0 || t[0] != ','
    ensures ParseItems(PrintItems([], vs) + t) == Some(([], vs, t))
    decreases |vs|, 0
  {
    var s := PrintItems([], vs) + t;
    var rest := PrintItems([], vs[1..]) + t;
    assert |s| > 1 && s[0] == ',' && StartsValue(s[1]) && ParseValue(s[1..]) == Some((vs[0], rest)) by {
      assert s == "," + (PrintValue(vs[0]) + rest);
      assert s[1..] == PrintValue(vs[0]) + rest;
      PrintValueStart(vs[0]);
      ValueRoundTrip(vs[0], rest);
    }
    ItemsRoundTrip([], vs[1..], t);
    ItemsValueStep(s, vs[0], rest, [], vs[1..], t);
    assert [vs[0]] + vs[1..] == vs;
  }

  lemma ItemsStart(rs: seq<ResultType>, vs: seq<ValueType>)
    ensures PrintItems(rs, vs) == "" || PrintItems(rs, vs)[0] == ','
  {
  }

  lemma AsyncClassNameOk(c: AsyncClass)
    requires WfAsyncClass(c)
    ensures IsIdent(AsyncClassName(c)) && AsyncClassOf(AsyncClassName(c)) == c
  {
    match c {
      case Stopped => StoppedName();
      case Running => RunningName();
      case ThreadSelected => ThreadSelectedName();
      case BreakpointCreated => BreakpointCreatedName();
      case BreakpointModified => BreakpointModifiedName();
      case BreakpointDeleted => BreakpointDeletedName();
      case UnknownClass(_) =>
    }
  }

  lemma StoppedName() ensures IsIdent("stopped") && AsyncClassOf("stopped") == Stopped {}
  lemma RunningName() ensures IsIdent("running") && AsyncClassOf("running") == Running {}
  lemma ThreadSelectedName() ensures IsIdent("thread-selected") && AsyncClassOf("thread-selected") == ThreadSelected {}
  lemma BreakpointCreatedName() ensures IsIdent("breakpoint-created") && AsyncClassOf("breakpoint-created") == BreakpointCreated {}
  lemma BreakpointModifiedName() ensures IsIdent("breakpoint-modified") && AsyncClassOf("breakpoint-modified") == BreakpointModified {}
  lemma BreakpointDeletedName() ensures IsIdent("breakpoint-deleted") && AsyncClassOf("breakpoint-deleted") == BreakpointDeleted {}

  /** One unfolding of the line reader once the class name and the items have been read. */
  lemma LineStep(s: string, name: string, rest: string, rs: seq<ResultType>, vs: seq<ValueType>, nl: string)
    requires |s| > 0 && ParseIdent(s[1..]) == Some((name, rest))
    requires ParseItems(rest) == Some((rs, vs, nl)) && IsLineEnd(nl)
    ensures s[0] == '=' ==> ParseOutputOneline(s) == Some(OutOfBand(AsyncRecord(NotifyAsync(AsyncOutput(AsyncClassOf(name), rs, vs)))))
    ensures s[0] == '*' ==> ParseOutputOneline(s) == Some(OutOfBand(AsyncRecord(ExecAsync(AsyncOutput(AsyncClassOf(name), rs, vs)))))
    ensures s[0] == '^' && vs == [] ==> ParseOutputOneline(s) == Some(ResultLine(ResultRecord(ResultClassOf(name), rs)))
  {
  }

  /** A printed line reads back as its class name followed by its items. */
  lemma LinePieces(c: char, name: string, rs: seq<ResultType>, vs: seq<ValueType>, nl: string)
    requires IsIdent(name) && WfResults(rs) && WfValues(vs) && IsLineEnd(nl)
    ensures ParseIdent(([c] + name + PrintItems(rs, vs) + nl)[1..]) == Some((name, PrintItems(rs, vs) + nl))
    ensures ParseItems(PrintItems(rs, vs) + nl) == Some((rs, vs, nl))
  {
    var rest := PrintItems(rs, vs) + nl;
    assert ([c] + name + PrintItems(rs, vs) + nl)[1..] == name + rest;
    ItemsStart(rs, vs);
    IdentLenOf(name, rest);
    assert (name + rest)[..|name|] == name && (name + rest)[|name|..] == rest;
    ItemsRoundTrip(rs, vs, nl);
  }

  /**
   * Reading a printed line, terminated by `\n` or by `\r\n`, gives back the record: the
   * record kind from the first character, the class from its name, results and values
   * each in their original order.
   */
  lemma LineRoundTrip(o: OutputOneline, nl: string)
    requires WfLine(o) && IsLineEnd(nl)
    ensures ParseOutputOneline(PrintLine(o) + nl) == Some(o)
  {
    var s := PrintLine(o) + nl;
    match o {
      case OutOfBand(AsyncRecord(a)) =>
        var out := a.output;
        var name := AsyncClassName(out.asyncClass);
        AsyncClassNameOk(out.asyncClass);
        var c := if a.NotifyAsync? then '=' else '*';
        assert s == [c] + name + PrintItems(out.results, out.values) + nl;
        LinePieces(c, name, out.results, out.values, nl);
        LineStep(s, name, PrintItems(out.results, out.values) + nl, out.results, out.values, nl);
      case ResultLine(r) =>
        var name := ResultClassName(r.resultClass);
        assert s == ['^'] + name + PrintItems(r.results, []) + nl;
        LinePieces('^', name, r.results, [], nl);
        LineStep(s, name, PrintItems(r.results, []) + nl, r.results, [], nl);
    }
  }

  // ---------------------------------------------------------------- the recorded examples

  /** `[]` is the empty list and `{}` the empty tuple. */
  lemma EmptyContainers()
    ensures ParseList("[]") == Some((EmptyList, ""))
    ensures ParseTuple("{}") == Some((EmptyTuple, ""))
    ensures ParseValue("[]") == Some((List(EmptyList), ""))
  {
  }

  /** `res-ult=[]`: the name is kept verbatim, dash included. */
  lemma DashedResultName()
    ensures ParseResult("res-ult=[]") == Some((ResultType("res-ult", List(EmptyList)), ""))
  {
    var r := ResultType("res-ult", List(EmptyList));
    assert PrintResult(r) + "" == "res-ult=[]";
    ResultRoundTrip(r, "");
  }

  /** Text with no quote and no backslash: a C-string body as it stands. */
  predicate PlainText(t: string)
  {
    forall i | 0 <= i < |t| :: t[i] != '"' && t[i] != '\\'
  }

  /** A quoted string whose body is an escape pair then plain text is read whole, the escape kept verbatim. */
  lemma QuotedEscapeThenText(c: char, t: string)
    requires PlainText(t)
    ensures ParseCString("\"" + (['\\', c] + t) + "\"") == Some((['\\', c] + t, ""))
  {
    PlainTextIsBody(t);
    EscapePairKept(c, t);
    CStringBetweenQuotes(['\\', c] + t);
  }

  /** `"\"3asdfwerasdf"`: an escaped quote stays in the body, backslash included. */
  lemma EscapedQuoteString()
    ensures ParseCString("\"\\\"3asdfwerasdf\"") == Some(("\\\"3asdfwerasdf", ""))
  {
    assert "\"" + (['\\', '"'] + "3asdfwerasdf") + "\"" == "\"\\\"3asdfwerasdf\"";
    assert ['\\', '"'] + "3asdfwerasdf" == "\\\"3asdfwerasdf";
    QuotedEscapeThenText('"', "3asdfwerasdf");
  }

  /** A notify-async (`=`) or exec-async (`*`) line holding a single constant result. */
  function OneResultLine(exec: bool, c: AsyncClass, name: string, text: string): OutputOneline
  {
    var out := AsyncOutput(c, [ResultType(name, Const(text))], []);
    OutOfBand(AsyncRecord(if exec then ExecAsync(out) else NotifyAsync(out)))
  }

  /** How such a line is printed: prefix, class name, then `,name="text"`. */
  lemma OneResultLineText(exec: bool, c: AsyncClass, name: string, text: string)
    ensures PrintLine(OneResultLine(exec, c, name, text))
         == (if exec then "*" else "=") + AsyncClassName(c) + ("," + (name + "=" + ("\"" + text + "\"")))
  {
    var r := ResultType(name, Const(text));
    var items := "," + (name + "=" + ("\"" + text + "\""));
    assert PrintItems([r], []) == items by {
      assert [r][1..] == [];
      assert PrintResult(r) == name + "=" + ("\"" + text + "\"");
      assert items + "" == items;
    }
    var out := AsyncOutput(c, [r], []);
    if exec {
      assert PrintLine(OutOfBand(AsyncRecord(ExecAsync(out)))) == "*" + AsyncClassName(c) + PrintItems([r], []);
    } else {
      assert PrintLine(OutOfBand(AsyncRecord(NotifyAsync(out)))) == "=" + AsyncClassName(c) + PrintItems([r], []);
    }
  }

  /** An async line with a known class and one constant result, either terminator, reads back as that record. */
  lemma SingleResultLine(exec: bool, c: AsyncClass, name: string, text: string, nl: string)
    requires !c.UnknownClass? && IsIdent(name) && PlainText(text) && IsLineEnd(nl)
    ensures ParseOutputOneline((if exec then "*" else "=") + AsyncClassName(c) + ("," + (name + "=" + ("\"" + text + "\""))) + nl)
         == Some(OneResultLine(exec, c, name, text))
  {
    var o := OneResultLine(exec, c, name, text);
    var rs := [ResultType(name, Const(text))];
    assert WfResults(rs) by {
      PlainTextIsBody(text);
      assert WfResult(rs[0]);
      assert rs[1..] == [];
    }
    assert WfLine(o);
    OneResultLineText(exec, c, name, text);
    LineRoundTrip(o, nl);
  }

  /** `=stopped,arch="i386:x86-64"` ended by `\n`: a notify-async stop with one result. */
  lemma StoppedNotifyLine()
    ensures ParseOutputOneline("=stopped,arch=\"i386:x86-64\"\n")
         == Some(OutOfBand(AsyncRecord(NotifyAsync(AsyncOutput(Stopped, [ResultType("arch", Const("i386:x86-64"))], [])))))
  {
    StoppedLineSpelling();
    SingleResultLine(false, Stopped, "arch", "i386:x86-64", "\n");
  }

  lemma StoppedLineSpelling()
    ensures "=" + "stopped" + ("," + ("arch" + "=" + ("\"" + "i386:x86-64" + "\""))) + "\n" == "=stopped,arch=\"i386:x86-64\"\n"
  {
  }

  /** `*running,thread-id="1"` ended by `\r\n`: an exec-async record, carriage return accepted. */
  lemma RunningExecLine()
    ensures ParseOutputOneline("*running,thread-id=\"1\"\r\n")
         == Some(OutOfBand(AsyncRecord(ExecAsync(AsyncOutput(Running, [ResultType("thread-id", Const("1"))], [])))))
  {
    assert "*" + "running" + ("," + ("thread-id" + "=" + ("\"" + "1" + "\""))) + "\r\n" == "*running,thread-id=\"1\"\r\n";
    SingleResultLine(true, Running, "thread-id", "1", "\r\n");
  }
}
