/**
 * How a string or hex item reads its value out of a record: its length (fixed, to the end of
 * the record, or computed), its decoded text, its hexadecimal form and its displayed value.
 * Each function takes the record as it stands and returns its result together with the
 * diagnostic entries it adds to the record's meta map.
 */
module ItemBehaviour {
  import opened Wrappers
  import opened JavaLang
  import opened ByteUtils
  import opened ItemDefinitions
  import opened RecordViews

  function LengthErrorKey(name: string): string { "[項目長の計算エラー: " + name + "]" }

  function ValueErrorKey(name: string): string { "[項目値の計算エラー: " + name + "]" }

  /** The toString of the NumberFormatException Integer.parseInt raises for s. */
  function NumberFormatDescription(s: string): string {
    "java.lang.NumberFormatException: For input string: \"" + s + "\""
  }

  /**
   * getLength: a fixed length other than -1 as it is; -1 for the rest of the record from
   * offset; a computed length as the integer its expression yields. When the expression
   * fails or does not yield an integer, the length is 0 and the failure is recorded.
   */
  function FieldLength(env: Env, def: Node, v: RecordView, offset: int): (t: Traced<int>)
    requires def.IsField()
    ensures def.length.Fixed? ==> t.diagnostics == []
    ensures def.length == Fixed(-1) ==> t.value == v.length - offset
    ensures def.length.Fixed? && def.length.n != -1 ==> t.value == def.length.n
    ensures |t.diagnostics| <= 1
    ensures t.diagnostics != [] ==> t.value == 0 && t.diagnostics[0].0 == LengthErrorKey(def.name)
  {
    match def.length
    case Fixed(n) => Traced(if n != -1 then n else v.length - offset, [])
    case Computed(e) =>
      match env.eval(e, v, [])
      case Failure(d) => Traced(0, [(LengthErrorKey(def.name), d)])
      case Evaluated(s) =>
        match ParseInt(s)
        case Ok(n) => Traced(n, [])
        case Err(_) => Traced(0, [(LengthErrorKey(def.name), NumberFormatDescription(s))])
  }

  /** A computed length is recorded as an error exactly when its text is not a 32-bit integer. */
  lemma ComputedLengthError(env: Env, def: Node, v: RecordView, offset: int)
    requires def.IsField() && def.length.Computed?
    ensures var t := FieldLength(env, def, v, offset);
            var r := env.eval(def.length.expression, v, []);
            (t.diagnostics == [] <==> r.Evaluated? && ParseInt(r.text).Ok?) &&
            (t.diagnostics == [] ==> t.value == ParseInt(r.text).value)
  {
  }

  /** The number of bytes a string item decodes: its length, cut down to what the raw data still holds. */
  function ClampedLength(length: int, remain: int): (r: int)
    ensures r <= Max(length, 0) && (r <= remain || r == 0)
    ensures length <= remain ==> r == length
  {
    if length > remain then Max(remain, 0) else length
  }

  /**
   * toRawStringValue: the item's bytes decoded in its charset. Without raw data, or when
   * the offset or the length leaves the array, the text is empty.
   */
  function RawStringValue(env: Env, def: Node, v: RecordView, offset: int): (t: Traced<string>)
    requires def.StringItem?
    ensures t.diagnostics == FieldLength(env, def, v, offset).diagnostics
  {
    var len := FieldLength(env, def, v, offset);
    match v.raw
    case NoData => Traced("", len.diagnostics)
    case Bytes(b) =>
      var l := ClampedLength(len.value, |b| - offset);
      if 0 <= offset && 0 <= l && offset + l <= |b| then Traced(env.decode(def.charset, b[offset..offset + l]), len.diagnostics)
      else Traced("", len.diagnostics)
  }

  /**
   * The decoded bytes are those from offset up to offset + length, stopping at the end of the
   * data; an offset outside the data or a negative length gives the empty text.
   */
  lemma RawStringValueSlice(env: Env, def: Node, v: RecordView, offset: int)
    requires def.StringItem? && v.raw.Bytes?
    ensures var b := v.raw.data;
            var n := FieldLength(env, def, v, offset).value;
            var t := RawStringValue(env, def, v, offset).value;
            (0 <= offset <= |b| && n >= 0 ==> t == env.decode(def.charset, b[offset..offset + Min(n, |b| - offset)])) &&
            (offset < 0 || offset > |b| || n < 0 ==> t == "")
  {
  }

  /**
   * toStringValue of a string item: the decoded text, or, with a value expression, what the
   * expression yields with `value` and `offset` bound. A failing expression yields "[N/A]"
   * and records the text it started from and the failure.
   */
  function StringItemValue(env: Env, def: Node, v: RecordView, offset: int): (t: Traced<string>)
    requires def.StringItem?
    ensures def.valueExpression.None? ==> t == RawStringValue(env, def, v, offset)
  {
    var raw := RawStringValue(env, def, v, offset);
    match def.valueExpression
    case None => raw
    case Some(e) =>
      var v1 := ApplyDiagnostics(v, raw.diagnostics);
      match env.eval(e, v1, [Param("value", TextParam(raw.value)), Param("offset", IntParam(offset))])
      case Evaluated(s) => Traced(s, raw.diagnostics)
      case Failure(d) =>
        Traced("[N/A]", raw.diagnostics + [(ValueErrorKey(def.name), "計算元値: " + raw.value + ", エラー内容: " + d)])
  }

  /**
   * toHexValue of a string item: with raw bytes, the hex of the item's slice (empty when the
   * slice leaves the array); without, the hex of the decoded text encoded again.
   */
  function StringItemHex(env: Env, def: Node, v: RecordView, offset: int): (t: Traced<string>)
    requires def.StringItem?
    ensures t.diagnostics == FieldLength(env, def, v, offset).diagnostics
  {
    match v.raw
    case Bytes(b) =>
      var len := FieldLength(env, def, v, offset);
      var h := if HexRange(b, offset, len.value).Ok? then HexRange(b, offset, len.value).value else "";
      Traced(h, len.diagnostics)
    case NoData =>
      var raw := RawStringValue(env, def, v, offset);
      Traced(Hex(env.encode(def.charset, raw.value)), raw.diagnostics)
  }

  /**
   * toHexValue of a hex item: the hex of its slice of the raw bytes, empty without raw data.
   * A slice outside the array is not caught here: the index error propagates.
   */
  function HexItemHex(env: Env, def: Node, v: RecordView, offset: int): (t: Traced<Result<string>>)
    requires def.HexItem?
    ensures v.raw.NoData? ==> t == Traced(Ok(""), [])
    ensures v.raw.Bytes? ==> t.value == HexRange(v.raw.data, offset, FieldLength(env, def, v, offset).value)
  {
    match v.raw
    case NoData => Traced(Ok(""), [])
    case Bytes(b) =>
      var len := FieldLength(env, def, v, offset);
      Traced(HexRange(b, offset, len.value), len.diagnostics)
  }

  /** toStringValue of a hex item: its hex text, or what its value expression yields with `value` bound. */
  function HexItemValue(env: Env, def: Node, v: RecordView, offset: int): (t: Traced<Result<string>>)
    requires def.HexItem?
    ensures HexItemHex(env, def, v, offset).value.Err? ==> t == HexItemHex(env, def, v, offset)
    ensures def.valueExpression.None? ==> t == HexItemHex(env, def, v, offset)
  {
    var hex := HexItemHex(env, def, v, offset);
    match hex.value
    case Err(_) => hex
    case Ok(h) =>
      match def.valueExpression
      case None => hex
      case Some(e) =>
        var v1 := ApplyDiagnostics(v, hex.diagnostics);
        match env.eval(e, v1, [Param("value", TextParam(h))])
        case Evaluated(s) => Traced(Ok(s), hex.diagnostics)
        case Failure(d) =>
          Traced(Ok("[N/A]"), hex.diagnostics + [(ValueErrorKey(def.name), "計算元値: " + h + ", エラー内容: " + d)])
  }

  /** The displayed value of a field item (RecordItemImpl.toString without its cache). */
  function FieldValue(env: Env, def: Node, v: RecordView, offset: int): (t: Traced<Result<string>>)
    requires def.IsField()
    ensures def.StringItem? ==> t.value == Ok(StringItemValue(env, def, v, offset).value)
  {
    if def.StringItem? then
      var s := StringItemValue(env, def, v, offset);
      Traced(Ok(s.value), s.diagnostics)
    else HexItemValue(env, def, v, offset)
  }

  /** The hex form of a field item (RecordItemImpl.toHexString). */
  function FieldHex(env: Env, def: Node, v: RecordView, offset: int): (t: Traced<Result<string>>)
    requires def.IsField()
    ensures def.StringItem? ==> t.value.Ok?
  {
    if def.StringItem? then
      var s := StringItemHex(env, def, v, offset);
      Traced(Ok(s.value), s.diagnostics)
    else HexItemHex(env, def, v, offset)
  }

  /** A value expression that fails leaves "[N/A]" and one diagnostic naming the item. */
  lemma ValueExpressionFailure(env: Env, def: Node, v: RecordView, offset: int)
    requires def.StringItem? && def.valueExpression.Some?
    requires var raw := RawStringValue(env, def, v, offset);
             env.eval(def.valueExpression.value, ApplyDiagnostics(v, raw.diagnostics),
                      [Param("value", TextParam(raw.value)), Param("offset", IntParam(offset))]).Failure?
    ensures StringItemValue(env, def, v, offset).value == "[N/A]"
    ensures var d := StringItemValue(env, def, v, offset).diagnostics;
            |d| >= 1 && d[|d| - 1].0 == ValueErrorKey(def.name)
    ensures var d := StringItemValue(env, def, v, offset).diagnostics;
            d[..|d| - 1] == RawStringValue(env, def, v, offset).diagnostics
  {
  }

  /**
   * A string item's value expression sees the decoded text as `value` and the item's offset as
   * `offset`; what it evaluates to is the item's value, and it adds no diagnostic.
   */
  lemma StringValueExpressionSuccess(env: Env, def: Node, v: RecordView, offset: int, s: string)
    requires def.StringItem? && def.valueExpression.Some?
    requires var raw := RawStringValue(env, def, v, offset);
             env.eval(def.valueExpression.value, ApplyDiagnostics(v, raw.diagnostics),
                      [Param("value", TextParam(raw.value)), Param("offset", IntParam(offset))]) == Evaluated(s)
    ensures StringItemValue(env, def, v, offset) == Traced(s, RawStringValue(env, def, v, offset).diagnostics)
  {
  }

  /**
   * A hex item's value expression sees the hex text as `value` (and no offset); what it
   * evaluates to is the item's value, and it adds no diagnostic.
   */
  lemma HexValueExpressionSuccess(env: Env, def: Node, v: RecordView, offset: int, h: string, s: string)
    requires def.HexItem? && def.valueExpression.Some?
    requires HexItemHex(env, def, v, offset).value == Ok(h)
    requires env.eval(def.valueExpression.value, ApplyDiagnostics(v, HexItemHex(env, def, v, offset).diagnostics),
                      [Param("value", TextParam(h))]) == Evaluated(s)
    ensures HexItemValue(env, def, v, offset) == Traced(Ok(s), HexItemHex(env, def, v, offset).diagnostics)
  {
  }

  /** A hex item's value expression that fails leaves "[N/A]" and one diagnostic naming the item. */
  lemma HexValueExpressionFailure(env: Env, def: Node, v: RecordView, offset: int, h: string)
    requires def.HexItem? && def.valueExpression.Some?
    requires HexItemHex(env, def, v, offset).value == Ok(h)
    requires env.eval(def.valueExpression.value, ApplyDiagnostics(v, HexItemHex(env, def, v, offset).diagnostics),
                      [Param("value", TextParam(h))]).Failure?
    ensures HexItemValue(env, def, v, offset).value == Ok("[N/A]")
    ensures var d := HexItemValue(env, def, v, offset).diagnostics;
            |d| >= 1 && d[|d| - 1].0 == ValueErrorKey(def.name) &&
            d[..|d| - 1] == HexItemHex(env, def, v, offset).diagnostics
  {
  }

  /** The padding item's length is exactly what is left of the record after its offset. */
  lemma PaddingLength(env: Env, v: RecordView, offset: int)
    ensures FieldLength(env, Padding, v, offset) == Traced(v.length - offset, [])
  {
  }

  /**
   * The hex of a byte slice inside the data has two digits per byte of the item's length (a
   * Java array has fewer than 2^31 elements, so the end index does not wrap).
   */
  lemma HexItemHexLength(env: Env, def: Node, v: RecordView, offset: int)
    requires def.HexItem? && v.raw.Bytes? && |v.raw.data| < 0x8000_0000
    requires var n := FieldLength(env, def, v, offset).value;
             n > 0 && 0 <= offset && offset + n <= |v.raw.data|
    ensures HexItemHex(env, def, v, offset).value.Ok?
    ensures |HexItemHex(env, def, v, offset).value.value| == 2 * FieldLength(env, def, v, offset).value
  {
    var n := FieldLength(env, def, v, offset).value;
    HexRangeInRange(v.raw.data, offset, n);
    HexShape(v.raw.data[offset..offset + n]);
  }

  /**
   * An item reaching past the end of the raw bytes: the string item's toHexValue catches the
   * index error and shows nothing, while the hex item's lets it propagate. The string item's
   * decoded text is not affected: it stops at the end of the data. (An end index past
   * Integer.MAX_VALUE wraps instead; see ByteUtils.HexRangeWraps.)
   */
  lemma OverrunHex(env: Env, s: Node, h: Node, v: RecordView, offset: int)
    requires s.StringItem? && h.HexItem? && s.length == h.length && v.raw.Bytes?
    requires var n := FieldLength(env, s, v, offset).value;
             0 <= offset <= |v.raw.data| < offset + n < 0x8000_0000
    ensures StringItemHex(env, s, v, offset).value == ""
    ensures HexItemHex(env, h, v, offset).value == Err(IndexOutOfBounds)
    ensures RawStringValue(env, s, v, offset).value == env.decode(s.charset, v.raw.data[offset..])
  {
    assert FieldLength(env, h, v, offset).value == FieldLength(env, s, v, offset).value;
    var b := v.raw.data;
    HexRangeInRange(b, offset, FieldLength(env, s, v, offset).value);
    assert b[offset..offset + (|b| - offset)] == b[offset..];
  }

  /**
   * getLength of a group or a meta item: neither occupies bytes of the record. A string or
   * hex item reads its length as FieldLength says.
   */
  function NodeLength(env: Env, def: Node, v: RecordView, offset: int): (t: Traced<int>)
    requires !def.Hidden?
    ensures def.Group? || def.Meta? ==> t == Traced(0, [])
    ensures def.IsField() ==> t == FieldLength(env, def, v, offset)
  {
    if def.IsField() then FieldLength(env, def, v, offset) else Traced(0, [])
  }

  /**
   * toStringValue of any definition: a group shows the empty text; a meta item shows what its
   * expression evaluates to, and a failing evaluation propagates, recording nothing.
   */
  function NodeValue(env: Env, def: Node, v: RecordView, offset: int): (t: Traced<Result<string>>)
    requires !def.Hidden?
    ensures def.Group? ==> t == Traced(Ok(""), [])
    ensures def.Meta? ==> t.diagnostics == [] && (t.value.Ok? <==> env.eval(def.expression, v, []).Evaluated?)
    ensures def.Meta? && t.value.Ok? ==> t.value.value == env.eval(def.expression, v, []).text
    ensures def.Meta? && t.value.Err? ==> t.value == Err(Evaluation(env.eval(def.expression, v, []).description))
    ensures def.IsField() ==> t == FieldValue(env, def, v, offset)
  {
    if def.IsField() then FieldValue(env, def, v, offset)
    else if def.Meta? then
      match env.eval(def.expression, v, [])
      case Evaluated(s) => Traced(Ok(s), [])
      case Failure(d) => Traced(Err(Evaluation(d)), [])
    else Traced(Ok(""), [])
  }

  /** toHexValue of any definition: a group and a meta item have no hex form and show "". */
  function NodeHex(env: Env, def: Node, v: RecordView, offset: int): (t: Traced<Result<string>>)
    requires !def.Hidden?
    ensures def.Group? || def.Meta? ==> t == Traced(Ok(""), [])
    ensures def.IsField() ==> t == FieldHex(env, def, v, offset)
  {
    if def.IsField() then FieldHex(env, def, v, offset) else Traced(Ok(""), [])
  }
}
