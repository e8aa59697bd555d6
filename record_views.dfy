/**
 * A value-level view of one record (its raw data, length and three item maps), the
 * values stored in those maps, and the outside services the core calls: the script
 * evaluator, the charsets and the regular-expression matcher.
 */
module RecordViews {
  import opened Wrappers
  import opened ByteUtils
  import opened OrderedMaps
  import opened ItemDefinitions

  /** The raw data of a record: null (line and CSV records) or a byte array (dump and byte records). */
  datatype RawData = NoData | Bytes(data: seq<int8>)

  /**
   * What the meta and inner maps (and plain item entries) hold: null, a string, a boxed int,
   * or an expression item, which is re-evaluated each time it is shown.
   */
  datatype Value =
    | NullValue
    | Text(text: string)
    | Number(n: int)
    | Expression(expression: string, removable: bool)

  /** An item entry seen by value: a plain value, or a memoised item cell by definition and offset. */
  datatype ItemView = PlainItem(value: Value) | CellItem(definition: Node, offset: int)

  datatype RecordView = RecordView(
    isError: bool,
    raw: RawData,
    length: int,
    items: OMap<ItemView>,
    meta: OMap<Value>,
    inner: map<string, Value>)

  datatype ParamValue = TextParam(text: string) | IntParam(n: int)

  /** A named variable bound while an expression is evaluated. */
  datatype Param = Param(key: string, value: ParamValue)

  /** The evaluator's answer: the result's string form, or the description (toString) of the exception it raised. */
  datatype EvalResult = Evaluated(text: string) | Failure(description: string)

  /** What a regular-expression search finds: nothing, or the text of every named group (None when it did not take part). */
  datatype Match = NoMatch | Found(groups: map<string, Option<string>>)

  /**
   * The services the core uses and this model does not implement: eval(expression,
   * record, params), decoding and encoding text in a named charset, whether a charset
   * name is supported, and a find() of a pattern in a line.
   */
  datatype Env = Env(
    eval: (string, RecordView, seq<Param>) -> EvalResult,
    decode: (string, seq<int8>) -> string,
    encode: (string, string) -> seq<int8>,
    charsetSupported: string -> bool,
    find: (string, string) -> Match)

  /** A result together with the diagnostic meta entries recorded while computing it, in order. */
  datatype Traced<T> = Traced(value: T, diagnostics: seq<(string, string)>)

  /**
   * evalAsBoolean: a missing or empty expression is true; otherwise the result is false
   * only when the evaluator answers exactly "false". An evaluator failure counts as true.
   */
  function EvalAsBoolean(env: Env, v: RecordView, expression: Option<string>, params: seq<Param>): (b: bool)
    ensures !b <==> expression.Some? && expression.value != "" && env.eval(expression.value, v, params) == Evaluated("false")
  {
    match expression
    case None => true
    case Some(e) =>
      if e == "" then true
      else match env.eval(e, v, params)
        case Evaluated(s) => s != "false"
        case Failure(_) => true
  }

  /** A failing expression never hides a group: conditions fail open. */
  lemma FailedConditionIsTrue(env: Env, v: RecordView, e: string, params: seq<Param>)
    requires env.eval(e, v, params).Failure?
    ensures EvalAsBoolean(env, v, Some(e), params)
  {
  }

  function PutMeta(v: RecordView, key: string, value: Value): (r: RecordView)
    ensures r == v.(meta := Put(v.meta, key, value))
  {
    v.(meta := Put(v.meta, key, value))
  }

  /** The diagnostics recorded as string entries of a meta map, in order. */
  function PutDiagnostics(meta: OMap<Value>, diagnostics: seq<(string, string)>): (r: OMap<Value>)
    ensures |diagnostics| == 0 ==> r == meta
    ensures DistinctKeys(meta) ==> DistinctKeys(r)
    decreases |diagnostics|
  {
    if |diagnostics| == 0 then meta
    else PutDiagnostics(Put(meta, diagnostics[0].0, Text(diagnostics[0].1)), diagnostics[1..])
  }

  /** The record after its diagnostics are recorded; nothing but the meta map changes. */
  function ApplyDiagnostics(v: RecordView, diagnostics: seq<(string, string)>): (r: RecordView)
    ensures r.isError == v.isError && r.raw == v.raw && r.length == v.length
    ensures r.items == v.items && r.inner == v.inner
    ensures |diagnostics| == 0 ==> r == v
  {
    v.(meta := PutDiagnostics(v.meta, diagnostics))
  }

  lemma {:induction false} PutDiagnosticsAppend(meta: OMap<Value>, d1: seq<(string, string)>, d2: seq<(string, string)>)
    ensures PutDiagnostics(meta, d1 + d2) == PutDiagnostics(PutDiagnostics(meta, d1), d2)
    decreases |d1|
  {
    if |d1| > 0 {
      assert (d1 + d2)[1..] == d1[1..] + d2;
      PutDiagnosticsAppend(Put(meta, d1[0].0, Text(d1[0].1)), d1[1..], d2);
    } else {
      assert d1 + d2 == d2;
    }
  }

  /** Recording two batches of diagnostics one after the other is recording them together. */
  lemma ApplyDiagnosticsAppend(v: RecordView, d1: seq<(string, string)>, d2: seq<(string, string)>)
    ensures ApplyDiagnostics(v, d1 + d2) == ApplyDiagnostics(ApplyDiagnostics(v, d1), d2)
  {
    PutDiagnosticsAppend(v.meta, d1, d2);
  }
}
