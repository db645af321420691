/**
 * The field scans every MI extractor performs. Each extractor walks the `name=value`
 * items of a tuple in order and overwrites a local each time an item of interest comes
 * by, so what it ends up holding is decided by the LAST such item. `LastSelected` states
 * that outcome directly, for every kind of item an extractor looks for.
 */
module Fields {
  import opened Options
  import opened Numeric
  import opened Token

  /** Which items overwrite a given local. */
  datatype Rule =
    | Named(name: string)            // every item with that name (the local is reassigned whatever the value is)
    | ConstNamed(name: string)       // items with that name whose value is a constant
    | NumberNamed(name: string)      // items with that name whose constant reads as a u64
    | PlainAddr                      // `addr` constants other than `<MULTIPLE>` and `<PENDING>`
    | MultipleAddr                   // the `addr="<MULTIPLE>"` marker

  predicate Selects(rule: Rule, r: ResultType)
  {
    match rule
    case Named(n) => r.variable == n
    case ConstNamed(n) => r.variable == n && r.value.Const?
    case NumberNamed(n) => r.variable == n && r.value.Const? && ParseU64(r.value.text).Some?
    case PlainAddr => r.variable == "addr" && r.value.Const? && r.value.text != "<MULTIPLE>" && r.value.text != "<PENDING>"
    case MultipleAddr => r.variable == "addr" && r.value == Const("<MULTIPLE>")
  }

  /** Every rule looks at one item name only. */
  function RuleName(rule: Rule): string
  {
    match rule
    case Named(n) => n
    case ConstNamed(n) => n
    case NumberNamed(n) => n
    case PlainAddr => "addr"
    case MultipleAddr => "addr"
  }

  /** The last item the rule selects, found by scanning from the end. */
  function LastSelected(rs: seq<ResultType>, rule: Rule): (r: Option<ResultType>)
    ensures r.Some? ==> Selects(rule, r.value)
  {
    if |rs| == 0 then None
    else if Selects(rule, rs[|rs| - 1]) then Some(rs[|rs| - 1])
    else LastSelected(rs[..|rs| - 1], rule)
  }

  /**
   * What the scan keeps is the last selected item: it is an item of `rs` and no later
   * item is selected; nothing is kept exactly when no item is selected.
   */
  lemma {:induction false} LastSelectedIsLast(rs: seq<ResultType>, rule: Rule)
    ensures LastSelected(rs, rule).Some? ==>
      exists j | 0 <= j < |rs| :: rs[j] == LastSelected(rs, rule).value && forall k | j < k < |rs| :: !Selects(rule, rs[k])
    ensures LastSelected(rs, rule).None? <==> forall k | 0 <= k < |rs| :: !Selects(rule, rs[k])
    decreases |rs|
  {
    if |rs| > 0 && !Selects(rule, rs[|rs| - 1]) {
      var init := rs[..|rs| - 1];
      LastSelectedIsLast(init, rule);
      assert forall k | 0 <= k < |init| :: init[k] == rs[k];
    }
  }

  /** Scanning one more item either takes it or keeps what the earlier items gave. */
  lemma LastSelectedSnoc(rs: seq<ResultType>, x: ResultType, rule: Rule)
    ensures LastSelected(rs + [x], rule) == if Selects(rule, x) then Some(x) else LastSelected(rs, rule)
  {
    assert (rs + [x])[..|rs|] == rs;
  }

  /** Items with another name never influence the scan, wherever they stand. */
  lemma {:induction false} LastSelectedIgnores(a: seq<ResultType>, x: ResultType, b: seq<ResultType>, rule: Rule)
    requires x.variable != RuleName(rule)
    ensures LastSelected(a + [x] + b, rule) == LastSelected(a + b, rule)
    decreases |b|
  {
    if |b| == 0 {
      assert a + [x] + b == a + [x];
      assert a + b == a;
      LastSelectedSnoc(a, x, rule);
    } else {
      var init := b[..|b| - 1];
      var y := b[|b| - 1];
      assert a + [x] + b == (a + [x] + init) + [y];
      assert a + b == (a + init) + [y];
      LastSelectedSnoc(a + [x] + init, y, rule);
      LastSelectedSnoc(a + init, y, rule);
      LastSelectedIgnores(a, x, init, rule);
    }
  }

  /** The text of the last `name` constant (a non-constant `name` item leaves it alone). */
  function LastConst(rs: seq<ResultType>, name: string): Option<string>
  {
    match LastSelected(rs, ConstNamed(name))
    case None => None
    case Some(r) => Some(r.value.text)
  }

  /** The value of the last `name` constant that reads as a u64 (one that does not is skipped). */
  function LastNumber(rs: seq<ResultType>, name: string): Option<u64>
  {
    match LastSelected(rs, NumberNamed(name))
    case None => None
    case Some(r) => ParseU64(r.value.text)
  }

  /** `"y"` is enabled, `"n"` disabled, anything else (or a non-constant) unknown. */
  function EnabledFlag(v: ValueType): Option<bool>
  {
    match v
    case Const("y") => Some(true)
    case Const("n") => Some(false)
    case _ => None
  }

  /** The `enabled` local: every `enabled` item reassigns it, so the last one decides. */
  function LastEnabled(rs: seq<ResultType>): Option<bool>
  {
    match LastSelected(rs, Named("enabled"))
    case None => None
    case Some(r) => EnabledFlag(r.value)
  }

  /** The items of a `{...}` tuple; anything else has none. */
  function TupleItems(v: ValueType): seq<ResultType>
  {
    if v.Tuple? && v.tuple.TupleResults? then v.tuple.results else []
  }

  /** Every overwrite of the scan has an effect: the last `name` constant is what is kept. */
  lemma LastConstWins(rs: seq<ResultType>, name: string, text: string)
    ensures LastConst(rs + [ResultType(name, Const(text))], name) == Some(text)
  {
    LastSelectedSnoc(rs, ResultType(name, Const(text)), ConstNamed(name));
  }

  /** A `name` item that is not a constant leaves the kept text as it was. */
  lemma NonConstKeeps(rs: seq<ResultType>, x: ResultType)
    requires !x.value.Const?
    ensures LastConst(rs + [x], x.variable) == LastConst(rs, x.variable)
  {
    LastSelectedSnoc(rs, x, ConstNamed(x.variable));
  }

  /** A number item that does not read as a u64 leaves the kept number as it was. */
  lemma UnreadableNumberKeeps(rs: seq<ResultType>, name: string, text: string)
    requires ParseU64(text).None?
    ensures LastNumber(rs + [ResultType(name, Const(text))], name) == LastNumber(rs, name)
  {
    LastSelectedSnoc(rs, ResultType(name, Const(text)), NumberNamed(name));
  }

  /** The kept number is the reading of an item of the tuple. */
  lemma LastNumberReads(rs: seq<ResultType>, name: string)
    ensures LastNumber(rs, name).Some? <==>
      exists j | 0 <= j < |rs| :: rs[j].variable == name && rs[j].value.Const? && ParseU64(rs[j].value.text).Some?
    ensures LastNumber(rs, name).Some? ==>
      exists j | 0 <= j < |rs| :: rs[j].variable == name && rs[j].value.Const? && ParseU64(rs[j].value.text) == LastNumber(rs, name)
  {
    var r := LastSelected(rs, NumberNamed(name));
    LastSelectedIsLast(rs, NumberNamed(name));
    if r.None? {
      forall j | 0 <= j < |rs|
        ensures !(rs[j].variable == name && rs[j].value.Const? && ParseU64(rs[j].value.text).Some?)
      {
        assert !Selects(NumberNamed(name), rs[j]);
      }
    }
  }
}
