/**
 * The record readers. A line reader turns each line of a text file into a record
 * (LinesReader, HexDumpLinesReader, StringDumpLinesReader, CsvLinesReader); a byte reader
 * turns fixed-size chunks (FixedBytesReader) or the payloads of a read script
 * (VariableBytesReader) into records run through the layout walker. Each reader loads a
 * whole file record by record for a consumer, or a window of it into a RecordSet.
 */
module Readers {
  import opened Wrappers
  import opened JavaLang
  import opened ByteUtils
  import opened OrderedMaps
  import opened Splitting
  import opened RecordViews
  import opened Records
  import opened RecordFormats
  import opened RecordSets
  import opened DataParser
  import opened Windowing
  import opened Consuming

  const PatternMismatchMessage: string := "不明なレコード形式(適用可能なrecordPatternが見つからない)"

  const RecordSizeMessage: string := "BytesReaderのrecordSizeの指定が不正です。"

  predicate IsLineReader(k: ReaderKind) {
    k.LinesReader? || k.HexDumpLinesReader? || k.StringDumpLinesReader? || k.CsvLinesReader?
  }

  /**
   * Charset.forName(options.get(key)): a missing option is a null name, which is an
   * IllegalArgumentException; a name the platform does not support is rejected.
   */
  function CharsetOption(env: Env, options: map<string, string>, key: string): (r: Result<string>)
    ensures key !in options ==> r == Err(IllegalArgument("Null charset name"))
    ensures key in options ==> (r.Ok? <==> env.charsetSupported(options[key]))
    ensures r.Ok? ==> key in options && r.value == options[key]
    ensures key in options && r.Err? ==> r.error == UnsupportedCharset(options[key])
  {
    if key !in options then Err(IllegalArgument("Null charset name"))
    else if env.charsetSupported(options[key]) then Ok(options[key])
    else Err(UnsupportedCharset(options[key]))
  }

  /** Matcher.group(name): a name the pattern does not define throws; None when the group did not take part. */
  function Group(groups: map<string, Option<string>>, name: string): (r: Result<Option<string>>)
    ensures r.Ok? <==> name in groups
    ensures r.Ok? ==> r.value == groups[name]
  {
    if name in groups then Ok(groups[name]) else Err(IllegalArgument("No group with name <" + name + ">"))
  }

  /** A group's text as a meta value: null when the group did not take part. */
  function GroupValue(text: Option<string>): Value {
    match text
    case None => NullValue
    case Some(s) => Text(s)
  }

  /**
   * The forEach of readRecord over the pattern's group names: each put into the meta map in
   * order with its group's text; `DUMP` passed over when skipDump holds.
   */
  function PutGroups(meta: OMap<Value>, names: seq<string>, groups: map<string, Option<string>>, skipDump: bool): (r: Result<OMap<Value>>)
    ensures r.Ok? && DistinctKeys(meta) ==> DistinctKeys(r.value)
    ensures r.Err? ==> r.error.IllegalArgument?
    decreases |names|
  {
    if |names| == 0 then Ok(meta)
    else if !PutsName(names[0], skipDump) then PutGroups(meta, names[1..], groups, skipDump)
    else
      var text :- Group(groups, names[0]);
      PutGroups(Put(meta, names[0], GroupValue(text)), names[1..], groups, skipDump)
  }

  /** The first name of the forEach: passed over, failing for want of its group, or put. */
  lemma PutGroupsCons(meta: OMap<Value>, name: string, rest: seq<string>, groups: map<string, Option<string>>, skipDump: bool)
    ensures PutGroups(meta, [name] + rest, groups, skipDump) ==
              if !PutsName(name, skipDump) then PutGroups(meta, rest, groups, skipDump)
              else if Group(groups, name).Err? then Err(Group(groups, name).error)
              else PutGroups(Put(meta, name, GroupValue(Group(groups, name).value)), rest, groups, skipDump)
  {
    assert ([name] + rest)[1..] == rest;
  }

  /** Whether put iterates over name `n` rather than passing it over. */
  predicate PutsName(n: string, skipDump: bool) {
    !(skipDump && n == "DUMP")
  }

  /** The puts of a matched line succeed exactly when the pattern defines every name put. */
  lemma {:induction false} PutGroupsOk(meta: OMap<Value>, names: seq<string>, groups: map<string, Option<string>>, skipDump: bool)
    ensures PutGroups(meta, names, groups, skipDump).Ok? <==>
            forall k :: 0 <= k < |names| && PutsName(names[k], skipDump) ==> names[k] in groups
    decreases |names|
  {
    if |names| > 0 {
      var rest := names[1..];
      assert forall k :: 1 <= k < |names| ==> names[k] == rest[k - 1];
      if !PutsName(names[0], skipDump) {
        PutGroupsOk(meta, rest, groups, skipDump);
      } else if names[0] in groups {
        PutGroupsOk(Put(meta, names[0], GroupValue(groups[names[0]])), rest, groups, skipDump);
      }
    }
  }

  /**
   * The meta items of a matched line: each name put holds its group's text (null for a group
   * that did not take part), and every other key keeps the entry it had.
   */
  lemma {:induction false} PutGroupsGet(meta: OMap<Value>, names: seq<string>, groups: map<string, Option<string>>, skipDump: bool, key: string)
    requires forall k :: 0 <= k < |names| && PutsName(names[k], skipDump) ==> names[k] in groups
    ensures PutGroups(meta, names, groups, skipDump).Ok?
    ensures Get(PutGroups(meta, names, groups, skipDump).value, key) ==
            if key in names && PutsName(key, skipDump) then Some(GroupValue(groups[key])) else Get(meta, key)
    decreases |names|
  {
    if |names| > 0 {
      var rest := names[1..];
      assert names == [names[0]] + rest;
      assert forall k :: 1 <= k < |names| ==> names[k] == rest[k - 1];
      assert key in names <==> key == names[0] || key in rest;
      if !PutsName(names[0], skipDump) {
        PutGroupsGet(meta, rest, groups, skipDump, key);
      } else {
        PutGroupsGet(Put(meta, names[0], GroupValue(groups[names[0]])), rest, groups, skipDump, key);
      }
    }
  }

  /** An ErrorRecord: no raw data, length 0, no items, the message under "[エラー]". */
  function ErrorView(message: string): RecordView {
    RecordView(true, NoData, 0, [], [("[エラー]", Text(message))], map[])
  }

  /** The key of CSV column i: the format's list item i, or "[i]" past the list. */
  function CsvKey(listItems: seq<string>, i: nat): string {
    if i < |listItems| then listItems[i] else "[" + IntToString(i) + "]"
  }

  /** The items of a CSV record: column i put under CsvKey(i), in column order. */
  function CsvItems(listItems: seq<string>, values: seq<string>): (r: OMap<ItemView>)
    ensures DistinctKeys(r) && |r| <= |values|
    decreases |values|
  {
    if |values| == 0 then []
    else Put(CsvItems(listItems, values[..|values| - 1]), CsvKey(listItems, |values| - 1), PlainItem(Text(values[|values| - 1])))
  }

  /** One plain text item per column, under the column's key, in column order. */
  function CsvEntries(listItems: seq<string>, values: seq<string>): (r: OMap<ItemView>)
    ensures |r| == |values|
  {
    seq(|values|, i requires 0 <= i < |values| => (CsvKey(listItems, i), PlainItem(Text(values[i]))))
  }

  /**
   * With distinct column keys the CSV record holds exactly one plain text item per column,
   * in column order, each under its column's key.
   */
  lemma {:induction false} CsvItemsSpec(listItems: seq<string>, values: seq<string>)
    requires DistinctKeys(CsvEntries(listItems, values))
    ensures CsvItems(listItems, values) == CsvEntries(listItems, values)
    decreases |values|
  {
    if |values| > 0 {
      var n := |values| - 1;
      var init := values[..n];
      var last := (CsvKey(listItems, n), PlainItem(Text(values[n])));
      CsvEntriesSnoc(listItems, values);
      assert DistinctKeys(CsvEntries(listItems, init)) by {
        var whole, part := CsvEntries(listItems, values), CsvEntries(listItems, init);
        forall i, j | 0 <= i < j < |part| ensures part[i].0 != part[j].0 {
          assert part[i] == whole[i] && part[j] == whole[j];
        }
      }
      CsvItemsSpec(listItems, init);
      CsvItemsAppend(listItems, values);
      calc {
        CsvItems(listItems, values);
        CsvItems(listItems, init) + [last];
        CsvEntries(listItems, init) + [last];
        CsvEntries(listItems, values);
      }
    }
  }

  /** The entries of all columns are those of all but the last, then the last's. */
  lemma CsvEntriesSnoc(listItems: seq<string>, values: seq<string>)
    requires |values| > 0
    ensures CsvEntries(listItems, values) ==
              CsvEntries(listItems, values[..|values| - 1]) + [(CsvKey(listItems, |values| - 1), PlainItem(Text(values[|values| - 1])))]
  {
    var n := |values| - 1;
    var init := values[..n];
    assert forall i :: 0 <= i < n ==> init[i] == values[i];
  }

  /** The last column's key is new among the columns before it, so its item is appended. */
  lemma CsvItemsAppend(listItems: seq<string>, values: seq<string>)
    requires |values| > 0
    requires DistinctKeys(CsvEntries(listItems, values))
    requires CsvItems(listItems, values[..|values| - 1]) == CsvEntries(listItems, values[..|values| - 1])
    ensures CsvItems(listItems, values) ==
              CsvItems(listItems, values[..|values| - 1]) + [(CsvKey(listItems, |values| - 1), PlainItem(Text(values[|values| - 1])))]
  {
    var m := CsvItems(listItems, values[..|values| - 1]);
    var k := CsvKey(listItems, |values| - 1);
    assert !HasKey(m, k) by {
      forall i | 0 <= i < |m| ensures m[i].0 != k {
        assert m[i] == CsvEntries(listItems, values[..|values| - 1])[i];
        assert CsvEntries(listItems, values)[i].0 == m[i].0;
        assert CsvEntries(listItems, values)[|values| - 1].0 == k;
      }
    }
  }

  /** Column i is put after the columns before it. */
  lemma CsvItemsSnoc(listItems: seq<string>, values: seq<string>, i: nat)
    requires i < |values|
    ensures CsvItems(listItems, values[..i + 1]) ==
              Put(CsvItems(listItems, values[..i]), CsvKey(listItems, i), PlainItem(Text(values[i])))
  {
    var prefix := values[..i + 1];
    assert prefix[..i] == values[..i] && prefix[i] == values[i];
  }

  /** Column keys past the format's list items are the bracketed column numbers. */
  lemma CsvKeyPastList(listItems: seq<string>, i: nat)
    requires i >= |listItems|
    ensures CsvKey(listItems, i) == "[" + IntToString(i) + "]"
  {
  }

  /**
   * CsvLinesReader.readRecord: the line split at every comma (quotes mean nothing, trailing
   * empty fields dropped), each field a plain item; no raw data and the line's length.
   */
  function CsvView(listItems: seq<string>, line: string): (r: RecordView)
    ensures !r.isError && r.raw == NoData && r.length == |line| && r.meta == [] && r.inner == map[]
    ensures DistinctKeys(r.items) && |r.items| <= |Split(PlainComma, line)|
  {
    RecordView(false, NoData, |line|, CsvItems(listItems, Split(PlainComma, line)), [], map[])
  }

  /**
   * readRecord of the line readers. Except for CSV, the line is searched with the
   * recordPattern option (a missing one is null, so compiling it throws), and a line it does
   * not match becomes an ErrorRecord. A LinesReader record has no raw data, the line's length,
   * the format's name under inner "[format]" and one meta item per named group. The dump
   * readers take the raw data from the `DUMP` group (hex-decoded, or encoded in the
   * dumpCharset option), leave `DUMP` out of the meta items and walk the layouts.
   */
  function LineRecord(env: Env, format: RecordFormat, line: string): (r: Result<RecordView>)
    requires IsLineReader(format.readerClass)
  {
    if format.readerClass.CsvLinesReader? then Ok(CsvView(format.listItems, line))
    else if "recordPattern" !in format.readerOptions then Err(NullPointer)
    else
      var pattern := format.readerOptions["recordPattern"];
      match env.find(pattern, line)
      case NoMatch => Ok(ErrorView(PatternMismatchMessage))
      case Found(groups) =>
        var inner := map["[format]" := Text(format.name)];
        var names := MetaNames(pattern);
        if format.readerClass.LinesReader? then
          var meta :- PutGroups([], names, groups, false);
          Ok(RecordView(false, NoData, |line|, [], meta, inner))
        else
          var dump :- Group(groups, "DUMP");
          var bytes :- DumpBytes(env, format, dump);
          var meta :- PutGroups([], names, groups, true);
          ParseRecordView(env, RecordView(false, Bytes(bytes), |bytes|, [], meta, inner), format)
  }

  /**
   * What a line reads to: a CSV line is never an error record; the only error record is the
   * pattern-mismatch one; a LinesReader or CSV record has no raw data and the line's length,
   * and a dump record is as long as the bytes it holds.
   */
  lemma LineRecordShape(env: Env, format: RecordFormat, line: string)
    requires IsLineReader(format.readerClass)
    ensures var r := LineRecord(env, format, line);
            (format.readerClass.CsvLinesReader? ==> r.Ok? && !r.value.isError) &&
            (r.Ok? && r.value.isError ==> r.value == ErrorView(PatternMismatchMessage)) &&
            (r.Ok? && !r.value.isError && (format.readerClass.LinesReader? || format.readerClass.CsvLinesReader?) ==>
               r.value.raw == NoData && r.value.length == |line|) &&
            (r.Ok? && !r.value.isError && (format.readerClass.HexDumpLinesReader? || format.readerClass.StringDumpLinesReader?) ==>
               r.value.raw.Bytes? && r.value.length == |r.value.raw.data|)
  {
  }

  /**
   * The raw data of a dump line: parseHexBinary of the group (null throws), or the group's
   * getBytes in the dumpCharset, whose name is looked up before the null group is used.
   */
  function DumpBytes(env: Env, format: RecordFormat, dump: Option<string>): (r: Result<seq<int8>>)
    requires format.readerClass.HexDumpLinesReader? || format.readerClass.StringDumpLinesReader?
    ensures format.readerClass.HexDumpLinesReader? && dump.Some? ==> r == ParseHexBinary(dump.value)
    ensures format.readerClass.HexDumpLinesReader? && dump.None? ==> r == Err(NullPointer)
  {
    if format.readerClass.HexDumpLinesReader? then
      if dump.None? then Err(NullPointer) else ParseHexBinary(dump.value)
    else
      var charset :- CharsetOption(env, format.readerOptions, "dumpCharset");
      if dump.None? then Err(NullPointer) else Ok(env.encode(charset, dump.value))
  }

  /** A hex dump record's raw data is the decoded dump: the record holds exactly the bytes the line shows. */
  lemma HexDumpRoundTrip(env: Env, format: RecordFormat, bytes: seq<int8>)
    requires format.readerClass.HexDumpLinesReader?
    ensures DumpBytes(env, format, Some(Hex(bytes))) == Ok(bytes)
  {
    ParseHexBinaryOfHex(bytes);
  }

  /** readRecord of the byte readers: the payload as raw data, its length, and the layouts walked. */
  function PayloadRecord(env: Env, format: RecordFormat, data: seq<int8>): Result<RecordView>
  {
    ParseRecordView(env, RecordView(false, Bytes(data), |data|, [], [], map[]), format)
  }

  /** A payload reads to a record over exactly its bytes, or fails only where a layout does. */
  lemma PayloadRecordShape(env: Env, format: RecordFormat, data: seq<int8>)
    ensures var r := PayloadRecord(env, format, data);
            (r.Ok? ==> !r.value.isError && r.value.raw == Bytes(data) && r.value.length == |data|) &&
            (r.Err? ==> r.error == Wrapped(NullPointer))
  {
  }

  /** What a reader turns into one record: a line of a text file, or a payload of bytes. */
  datatype Unit = LineUnit(line: string) | BytesUnit(data: seq<int8>)

  /** Lines are read by a line reader; payloads by any. */
  predicate Fits(format: RecordFormat, units: seq<Unit>) {
    forall k :: 0 <= k < |units| && units[k].LineUnit? ==> IsLineReader(format.readerClass)
  }

  function UnitRecord(env: Env, format: RecordFormat, u: Unit): Result<RecordView>
    requires u.LineUnit? ==> IsLineReader(format.readerClass)
  {
    match u
    case LineUnit(line) => LineRecord(env, format, line)
    case BytesUnit(data) => PayloadRecord(env, format, data)
  }

  /** The record each unit reads to, in file order. */
  function Results(env: Env, format: RecordFormat, units: seq<Unit>): (rs: seq<Result<RecordView>>)
    requires Fits(format, units)
    ensures |rs| == |units|
    decreases |units|
  {
    if |units| == 0 then [] else [UnitRecord(env, format, units[0])] + Results(env, format, units[1..])
  }

  /** Result k is the record of unit k. */
  lemma {:induction false} ResultsAt(env: Env, format: RecordFormat, units: seq<Unit>, k: nat)
    requires Fits(format, units) && k < |units|
    ensures Results(env, format, units)[k] == UnitRecord(env, format, units[k])
    decreases k
  {
    if k > 0 {
      var rest := units[1..];
      assert Fits(format, rest) by {
        forall j | 0 <= j < |rest| && rest[j].LineUnit?
          ensures IsLineReader(format.readerClass)
        {
          assert rest[j] == units[j + 1];
        }
      }
      assert Results(env, format, units) == [UnitRecord(env, format, units[0])] + Results(env, format, rest);
      assert rest[k - 1] == units[k];
      ResultsAt(env, format, rest, k - 1);
    }
  }

  /** The views of records, in order. */
  function Views(rs: seq<Record>): (vs: seq<RecordView>)
    reads rs
    ensures |vs| == |rs|
    ensures forall k :: 0 <= k < |rs| ==> vs[k] == rs[k].View()
    decreases |rs|
  {
    if |rs| == 0 then [] else Views(rs[..|rs| - 1]) + [rs[|rs| - 1].View()]
  }

  /** No record appears twice: every record a reader returns is a new object. */
  predicate Distinct(rs: seq<Record>) {
    forall i, j :: 0 <= i < j < |rs| ==> rs[i] != rs[j]
  }

  /** rs are distinct valid records, record k being the one read to results[first + k]. */
  ghost predicate Matches(results: seq<Result<RecordView>>, first: int, rs: seq<Record>)
    reads rs
  {
    0 <= first && first + |rs| <= |results| && Distinct(rs) &&
    forall k :: 0 <= k < |rs| ==> rs[k].Valid() && results[first + k] == Ok(rs[k].View())
  }

  /**
   * The forEach of readRecord putting the pattern's groups into a record's meta map, which
   * stops at the first name the pattern does not define.
   */
  method PutGroupsInto(rec: Record, names: seq<string>, groups: map<string, Option<string>>, skipDump: bool) returns (r: Outcome)
    requires rec.Valid()
    modifies rec
    ensures rec.Valid() && rec.items == old(rec.items) && rec.inner == old(rec.inner)
    ensures var p := PutGroups(old(rec.meta), names, groups, skipDump);
            (p.Err? ==> r == Fail(p.error)) && (p.Ok? ==> r == Pass && rec.meta == p.value)
  {
    var i := 0;
    while i < |names|
      invariant 0 <= i <= |names|
      invariant rec.Valid() && rec.items == old(rec.items) && rec.inner == old(rec.inner)
      invariant PutGroups(old(rec.meta), names, groups, skipDump) == PutGroups(rec.meta, names[i..], groups, skipDump)
    {
      assert names[i..] == [names[i]] + names[i + 1..];
      var step := PutGroup(rec, names[i], names[i + 1..], groups, skipDump);
      if step.Fail? {
        return step;
      }
      i := i + 1;
    }
    return Pass;
  }

  /** One turn of that forEach: name passed over, put with its group's text, or failing for want of its group. */
  method PutGroup(rec: Record, name: string, ghost rest: seq<string>, groups: map<string, Option<string>>, skipDump: bool) returns (r: Outcome)
    requires rec.Valid()
    modifies rec
    ensures rec.Valid() && rec.items == old(rec.items) && rec.inner == old(rec.inner)
    ensures r.Fail? ==> PutGroups(old(rec.meta), [name] + rest, groups, skipDump) == Err(r.error)
    ensures r.Pass? ==> PutGroups(old(rec.meta), [name] + rest, groups, skipDump) == PutGroups(rec.meta, rest, groups, skipDump)
  {
    PutGroupsCons(rec.meta, name, rest, groups, skipDump);
    if PutsName(name, skipDump) {
      var text := Group(groups, name);
      if text.Err? {
        return Fail(text.error);
      }
      rec.PutMeta(name, GroupValue(text.value));
    }
    return Pass;
  }

  /** CsvLinesReader.readRecord: a record of the line's length, one plain item put per field. */
  method ReadCsvRecord(listItems: seq<string>, line: string) returns (rec: Record)
    ensures fresh(rec) && rec.Valid() && !rec.isError
    ensures rec.View() == CsvView(listItems, line)
  {
    rec := new Record(NoData, |line|);
    var values := Split(PlainComma, line);
    PutColumns(rec, listItems, |line|, values);
  }

  /** The loop of readRecord over the fields: field i is put under the key of column i. */
  method PutColumns(rec: Record, listItems: seq<string>, length: nat, values: seq<string>)
    requires rec.Valid() && rec.View() == RecordView(false, NoData, length, [], [], map[])
    modifies rec
    ensures rec.Valid() && rec.View() == RecordView(false, NoData, length, CsvItems(listItems, values), [], map[])
  {
    var i := 0;
    assert CsvItems(listItems, values[..0]) == [];
    while i < |values|
      invariant 0 <= i <= |values|
      invariant rec.Valid() && rec.View() == RecordView(false, NoData, length, CsvItems(listItems, values[..i]), [], map[])
    {
      PutColumn(rec, listItems, length, values, i);
      i := i + 1;
    }
    assert values[..i] == values;
  }

  /** One turn of the CSV loop: the text of column i is put under the column's key. */
  method PutColumn(rec: Record, listItems: seq<string>, length: nat, values: seq<string>, i: nat)
    requires i < |values| && rec.Valid()
    requires rec.View() == RecordView(false, NoData, length, CsvItems(listItems, values[..i]), [], map[])
    modifies rec
    ensures rec.Valid()
    ensures rec.View() == RecordView(false, NoData, length, CsvItems(listItems, values[..i + 1]), [], map[])
  {
    CsvItemsSnoc(listItems, values, i);
    var _ := rec.PutItem(CsvKey(listItems, i), Plain(Text(values[i])));
  }

  /**
   * readRecord of the line readers: the record LineRecord describes, built by putting the
   * format's name, the groups and the parsed layout into a new record, or the exception
   * that stops it.
   */
  method ReadLineRecord(env: Env, format: RecordFormat, line: string) returns (r: Result<Record>)
    requires IsLineReader(format.readerClass)
    ensures r.Ok? ==> fresh(r.value) && r.value.Valid() && LineRecord(env, format, line) == Ok(r.value.View())
    ensures r.Err? ==> LineRecord(env, format, line) == Err(r.error)
  {
    if format.readerClass.CsvLinesReader? {
      var rec := ReadCsvRecord(format.listItems, line);
      return Ok(rec);
    }
    if "recordPattern" !in format.readerOptions {
      return Err(NullPointer);
    }
    var m := env.find(format.readerOptions["recordPattern"], line);
    if m.NoMatch? {
      var rec := new Record.Error(PatternMismatchMessage);
      return Ok(rec);
    }
    var names := GetMetaDataNames(format);
    var rec;
    if format.readerClass.LinesReader? {
      rec := new Record(NoData, |line|);
    } else {
      var dump :- Group(m.groups, "DUMP");
      var bytes :- DumpBytes(env, format, dump);
      rec := new Record(Bytes(bytes), |bytes|);
    }
    rec.PutInner("[format]", Text(format.name));
    var put := PutGroupsInto(rec, names.value, m.groups, !format.readerClass.LinesReader?);
    if put.Fail? {
      return Err(put.error);
    }
    if !format.readerClass.LinesReader? {
      var parsed := ParseRecord(env, rec, format);
      if parsed.Fail? {
        return Err(parsed.error);
      }
    }
    return Ok(rec);
  }

  /** readRecord of the byte readers: a record over the payload, parsed. */
  method ReadPayloadRecord(env: Env, format: RecordFormat, data: seq<int8>) returns (r: Result<Record>)
    ensures r.Ok? ==> fresh(r.value) && r.value.Valid() && PayloadRecord(env, format, data) == Ok(r.value.View())
    ensures r.Err? ==> PayloadRecord(env, format, data) == Err(r.error)
  {
    var rec := new Record(Bytes(data), |data|);
    var parsed := ParseRecord(env, rec, format);
    if parsed.Fail? {
      return Err(parsed.error);
    }
    return Ok(rec);
  }

  method ReadUnit(env: Env, format: RecordFormat, u: Unit) returns (r: Result<Record>)
    requires u.LineUnit? ==> IsLineReader(format.readerClass)
    ensures r.Ok? ==> fresh(r.value) && r.value.Valid() && UnitRecord(env, format, u) == Ok(r.value.View())
    ensures r.Err? ==> UnitRecord(env, format, u) == Err(r.error)
  {
    match u
    case LineUnit(line) => r := ReadLineRecord(env, format, line);
    case BytesUnit(data) => r := ReadPayloadRecord(env, format, data);
  }


  /** readRecord on u, unit i of a file: the record is result i. */
  method ReadUnitAt(env: Env, format: RecordFormat, ghost units: seq<Unit>, ghost i: nat, u: Unit) returns (r: Result<Record>)
    requires Fits(format, units) && i < |units| && units[i] == u
    ensures r.Ok? ==> fresh(r.value) && r.value.Valid() && Results(env, format, units)[i] == Ok(r.value.View())
    ensures r.Err? ==> Results(env, format, units)[i] == Err(r.error)
  {
    ResultsAt(env, format, units, i);
    r := ReadUnit(env, format, u);
  }

  /** The consumer loop of the streaming loads: one record read and handed over per unit. */
  method Stream(env: Env, format: RecordFormat, units: seq<Unit>) returns (out: seq<Record>, r: Outcome)
    requires Fits(format, units)
    ensures forall k :: 0 <= k < |out| ==> fresh(out[k]) && out[k].Valid()
    ensures Distinct(out)
    ensures (Views(out), r) == Consume(Results(env, format, units))
  {
    out := [];
    var i := 0;
    while i < |units|
      invariant 0 <= i <= |units| && |out| == i
      invariant Matches(Results(env, format, units), 0, out)
      invariant forall k :: 0 <= k < |out| ==> fresh(out[k])
    {
      var rec := ReadUnitAt(env, format, units, i, units[i]);
      if rec.Err? {
        StreamFailure(Results(env, format, units), out, rec.error);
        return out, Fail(rec.error);
      }
      assert rec.value !in out;
      MatchesAppend(Results(env, format, units), 0, out, rec.value);
      out := out + [rec.value];
      i := i + 1;
    }
    StreamDone(Results(env, format, units), out);
    return out, Pass;
  }

  function LineUnits(lines: seq<string>): (us: seq<Unit>)
    ensures |us| == |lines| && forall k :: 0 <= k < |lines| ==> us[k] == LineUnit(lines[k])
  {
    seq(|lines|, k requires 0 <= k < |lines| => LineUnit(lines[k]))
  }

  function PayloadUnits(payloads: seq<seq<int8>>): (us: seq<Unit>)
    ensures |us| == |payloads| && forall k :: 0 <= k < |payloads| ==> us[k] == BytesUnit(payloads[k])
  {
    seq(|payloads|, k requires 0 <= k < |payloads| => BytesUnit(payloads[k]))
  }


  /**
   * The streaming load of the line readers: the charset option is resolved first, then every
   * line of the file goes to the consumer as its record.
   */
  method StreamLines(env: Env, format: RecordFormat, lines: seq<string>) returns (out: seq<Record>, r: Outcome)
    requires IsLineReader(format.readerClass)
    ensures forall k :: 0 <= k < |out| ==> fresh(out[k]) && out[k].Valid()
    ensures Distinct(out)
    ensures var c := CharsetOption(env, format.readerOptions, "charset");
            (c.Err? ==> out == [] && r == Fail(c.error)) &&
            (c.Ok? ==> (Views(out), r) == Consume(Results(env, format, LineUnits(lines))))
  {
    var c := CharsetOption(env, format.readerOptions, "charset");
    if c.Err? {
      return [], Fail(c.error);
    }
    out, r := Stream(env, format, LineUnits(lines));
  }

  /**
   * The streaming load of VariableBytesReader. Its read script yields the payloads and then ends
   * with `ending`: Pass when it returns null, Fail when it throws (a script error, a result that
   * is not a byte array, or no readProcess option at all). Every payload's record goes to the
   * consumer until the first record that fails; when none fails, the load ends as the script does.
   */
  method StreamPayloads(env: Env, format: RecordFormat, payloads: seq<seq<int8>>, ending: Outcome)
      returns (out: seq<Record>, r: Outcome)
    ensures forall k :: 0 <= k < |out| ==> fresh(out[k]) && out[k].Valid()
    ensures Distinct(out)
    ensures var c := Consume(Results(env, format, PayloadUnits(payloads)));
            Views(out) == c.0 && r == (if c.1.Pass? then ending else c.1)
  {
    out, r := Stream(env, format, PayloadUnits(payloads));
    if r.Pass? {
      r := ending;
    }
  }

  /**
   * The windowed load of LinesReader and its subclasses and of VariableBytesReader over the
   * units of a file: the line readers resolve the charset option first; PagedLoad decides
   * the window (offset -1 and the reload of an empty window included), and the records of
   * the window's units are read in order.
   */
  function WindowLoad(env: Env, format: RecordFormat, units: seq<Unit>, offset: int, maxRecords: int): (r: Result<(Page, seq<RecordView>)>)
    requires Fits(format, units)
    ensures r.Ok? ==> r.value.0.end <= |units| && |r.value.1| == r.value.0.end - r.value.0.first && !Reloads(|units|, r.value.0)
  {
    var charset :- if IsLineReader(format.readerClass) then CharsetOption(env, format.readerOptions, "charset") else Ok("");
    var p :- PagedLoad(|units|, offset, maxRecords);
    var views :- Collect(Results(env, format, units)[p.first..p.end]);
    Ok((p, views))
  }

  /**
   * The records of a window are the records of the window's units, in file order: record k
   * of the set is result first + k, the record of unit first + k (ResultsAt).
   */
  lemma WindowRecords(env: Env, format: RecordFormat, units: seq<Unit>, offset: int, maxRecords: int,
                      p: Page, views: seq<RecordView>, k: nat)
    requires Fits(format, units)
    requires WindowLoad(env, format, units, offset, maxRecords) == Ok((p, views))
    requires k < |views|
    ensures PagedLoad(|units|, offset, maxRecords) == Ok(p)
    ensures p.first <= p.end <= |units| && |views| == p.end - p.first
    ensures p.first + k < |units| && Results(env, format, units)[p.first + k] == Ok(views[k])
  {
    WindowLoadOk(env, format, units, offset, maxRecords);
    CollectedSliceAt(Results(env, format, units), p.first, p.end, views, k);
  }

  /** Value k collected from a slice comes from result first + k of the whole. */
  lemma CollectedSliceAt<T>(results: seq<Result<T>>, first: nat, end: nat, views: seq<T>, k: nat)
    requires first <= end <= |results| && Collect(results[first..end]) == Ok(views) && k < |views|
    ensures |views| == end - first && results[first + k] == Ok(views[k])
  {
    CollectAt(results[first..end], views, k);
    SliceAt(results, first, end, k);
  }

  /** Element k of a slice is element first + k of the whole. */
  lemma SliceAt<T>(s: seq<T>, first: nat, end: nat, k: nat)
    requires first <= end <= |s| && k < end - first
    ensures s[first..end][k] == s[first + k]
  {
  }

  /** A window that loads is the page PagedLoad decides and the collected records of its units. */
  lemma WindowLoadOk(env: Env, format: RecordFormat, units: seq<Unit>, offset: int, maxRecords: int)
    requires Fits(format, units)
    requires WindowLoad(env, format, units, offset, maxRecords).Ok?
    ensures PagedLoad(|units|, offset, maxRecords).Ok?
    ensures var p := PagedLoad(|units|, offset, maxRecords).value;
            p.first <= p.end <= |units| &&
            Collect(Results(env, format, units)[p.first..p.end]).Ok? &&
            WindowLoad(env, format, units, offset, maxRecords).value == (p, Collect(Results(env, format, units)[p.first..p.end]).value)
  {
    PagedLoadIsScan(|units|, offset, maxRecords);
  }

  /** Value k of a collected sequence comes from its result k. */
  lemma CollectAt<T>(window: seq<Result<T>>, views: seq<T>, k: nat)
    requires Collect(window) == Ok(views) && k < |views|
    ensures |views| == |window| && window[k] == Ok(views[k])
  {
  }


  /**
   * Loading from the start with an unbounded window reads the same records, in the same
   * order, as the streaming load, and reports the end of the file.
   */
  lemma UnboundedWindowIsStream(env: Env, format: RecordFormat, units: seq<Unit>)
    requires Fits(format, units)
    requires IsLineReader(format.readerClass) ==> CharsetOption(env, format.readerOptions, "charset").Ok?
    ensures var w := WindowLoad(env, format, units, 0, 0);
            var c := Consume(Results(env, format, units));
            (w.Ok? <==> c.1.Pass?) &&
            (w.Ok? ==> w.value.1 == c.0 && w.value.0.eof && w.value.0.first == 0 && w.value.0.end == |units|) &&
            (w.Err? ==> w.error == c.1.error)
  {
    var results := Results(env, format, units);
    ConsumeIsCollect(results);
    var p := Scan(|units|, 0, 0);
    assert PagedLoad(|units|, 0, 0) == Ok(p);
    assert results[p.first..p.end] == results;
  }

  /** getLastPageOffset: every unit of the file counted, then rounded down to a multiple of maxRecords. */
  method CountLastPageOffset(units: seq<Unit>, maxRecords: int) returns (r: Result<int>)
    ensures r == LastPageOffset(|units|, maxRecords)
  {
    var count := 0;
    while count < |units|
      invariant 0 <= count <= |units|
    {
      count := count + 1;
    }
    if maxRecords == 0 {
      return Err(Arithmetic);
    }
    return Ok(JavaDiv(count, maxRecords) * maxRecords);
  }

  /**
   * load(path, format, offset, maxRecords) of LinesReader and VariableBytesReader: the set
   * holds the records of WindowLoad's window in file order, each a new object, with the
   * path, the format, the window's offset and whether the end of the file was reached.
   */
  method LoadPage(env: Env, format: RecordFormat, path: string, units: seq<Unit>, offset: int, maxRecords: int) returns (r: Result<RecordSet>)
    requires Fits(format, units)
    ensures var w := WindowLoad(env, format, units, offset, maxRecords);
            (w.Err? ==> r == Err(w.error)) &&
            (w.Ok? ==> r.Ok? && fresh(r.value) && Views(r.value.records) == w.value.1 &&
                       r.value.eof == w.value.0.eof && r.value.offset == w.value.0.offset &&
                       r.value.path == Some(path) && r.value.format == Some(format))
    ensures r.Ok? ==> Distinct(r.value.records) && forall k :: 0 <= k < |r.value.records| ==> fresh(r.value.records[k]) && r.value.records[k].Valid()
    decreases if offset == -1 then 0 else 1, 1
  {
    if IsLineReader(format.readerClass) {
      var charset := CharsetOption(env, format.readerOptions, "charset");
      if charset.Err? {
        return Err(charset.error);
      }
    }
    var o := offset;
    if offset == -1 {
      o :- CountLastPageOffset(units, maxRecords);
    }
    r := LoadPageFrom(env, format, path, units, offset, maxRecords, o);
  }

  /** load once the charset is known good and the starting offset o is decided. */
  method LoadPageFrom(env: Env, format: RecordFormat, path: string, units: seq<Unit>, offset: int, maxRecords: int, o: int)
      returns (r: Result<RecordSet>)
    requires Fits(format, units)
    requires IsLineReader(format.readerClass) ==> CharsetOption(env, format.readerOptions, "charset").Ok?
    requires offset == -1 ==> LastPageOffset(|units|, maxRecords) == Ok(o)
    requires offset != -1 ==> o == offset
    ensures var w := WindowLoad(env, format, units, offset, maxRecords);
            (w.Err? ==> r == Err(w.error)) &&
            (w.Ok? ==> r.Ok? && fresh(r.value) && Views(r.value.records) == w.value.1 &&
                       r.value.eof == w.value.0.eof && r.value.offset == w.value.0.offset &&
                       r.value.path == Some(path) && r.value.format == Some(format))
    ensures r.Ok? ==> Distinct(r.value.records) && forall k :: 0 <= k < |r.value.records| ==> fresh(r.value.records[k]) && r.value.records[k].Valid()
    decreases if offset == -1 then 0 else 1, 0
  {
    WindowLoadCases(env, format, units, offset, maxRecords, o);
    var loaded := LoadWindowAt(env, format, path, units, o, maxRecords);
    if loaded.None? {
      if offset == -1 {
        // load(path, format, -1, maxRecords) again, with the same arguments: the reload never returns
        return Err(StackOverflow);
      }
      r := LoadPage(env, format, path, units, -1, maxRecords);
      return;
    }
    return loaded.value;
  }

  /**
   * The body of load from the starting offset o: the window read, then either the reload of
   * the last page (None: the end of a non-empty file was reached with no record read) or the
   * set finished with the path, the format and the offset.
   */
  method LoadWindowAt(env: Env, format: RecordFormat, path: string, units: seq<Unit>, o: int, maxRecords: int)
      returns (r: Option<Result<RecordSet>>)
    requires Fits(format, units)
    ensures var p := Scan(|units|, o, maxRecords);
            var w := Collect(Results(env, format, units)[p.first..p.end]);
            (r.None? <==> Reloads(|units|, p)) &&
            (r.Some? && w.Err? ==> r.value == Err(w.error)) &&
            (r.Some? && w.Ok? ==> r.value.Ok? && fresh(r.value.value) && Views(r.value.value.records) == w.value &&
                                  r.value.value.eof == p.eof && r.value.value.offset == o &&
                                  r.value.value.path == Some(path) && r.value.value.format == Some(format))
    ensures r.Some? && r.value.Ok? ==>
              Distinct(r.value.value.records) &&
              forall k :: 0 <= k < |r.value.value.records| ==> fresh(r.value.value.records[k]) && r.value.value.records[k].Valid()
  {
    ghost var p := Scan(|units|, o, maxRecords);
    var records, index := ReadWindow(env, format, units, o, maxRecords);
    if records.Err? {
      return Some(Err(records.error));
    }
    var loaded := records.value;
    if loaded.eof && index != 0 && |loaded.records| == 0 {
      return None;
    }
    Finish(loaded, path, format, o);
    return Some(Ok(loaded));
  }

  /** setPath, setFormat and setOffset on a loaded set: its records are left as they are. */
  method Finish(records: RecordSet, path: string, format: RecordFormat, offset: int)
    modifies records
    ensures records.records == old(records.records) && records.eof == old(records.eof)
    ensures Views(records.records) == old(Views(records.records))
    ensures forall k :: 0 <= k < |records.records| ==> (records.records[k].Valid() <==> old(records.records[k].Valid()))
    ensures records.path == Some(path) && records.format == Some(format) && records.offset == offset
  {
    records.SetPath(path);
    records.SetFormat(format);
    records.SetOffset(offset);
  }

  /** WindowLoad once the charset and the starting offset o are known: the window of o, or its reload. */
  lemma WindowLoadCases(env: Env, format: RecordFormat, units: seq<Unit>, offset: int, maxRecords: int, o: int)
    requires Fits(format, units)
    requires IsLineReader(format.readerClass) ==> CharsetOption(env, format.readerOptions, "charset").Ok?
    requires offset == -1 ==> LastPageOffset(|units|, maxRecords) == Ok(o)
    requires offset != -1 ==> o == offset
    ensures var p := Scan(|units|, o, maxRecords);
            var w := Collect(Results(env, format, units)[p.first..p.end]);
            WindowLoad(env, format, units, offset, maxRecords) ==
              if Reloads(|units|, p) then (if offset == -1 then Err(StackOverflow) else WindowLoad(env, format, units, -1, maxRecords))
              else if w.Err? then Err(w.error) else Ok((p, w.value))
  {
  }

  /**
   * The read loop of the windowed load from offset o: units before the offset are passed
   * over, units in the window become records, and the loop ends at the end of the file (eof)
   * or at the first unit past the window. index counts the units read.
   */
  method ReadWindow(env: Env, format: RecordFormat, units: seq<Unit>, o: int, maxRecords: int) returns (r: Result<RecordSet>, index: int)
    requires Fits(format, units)
    ensures var p := Scan(|units|, o, maxRecords);
            var w := Collect(Results(env, format, units)[p.first..p.end]);
            (w.Err? ==> r == Err(w.error)) &&
            (w.Ok? ==> r.Ok? && fresh(r.value) && Views(r.value.records) == w.value && r.value.eof == p.eof &&
                       (r.value.eof && index != 0 && |r.value.records| == 0 <==> Reloads(|units|, p)))
    ensures r.Ok? ==> Distinct(r.value.records) && forall k :: 0 <= k < |r.value.records| ==> r.value.records[k].Valid()
    ensures r.Ok? ==> forall k :: 0 <= k < |r.value.records| ==> fresh(r.value.records[k])
  {
    ghost var p := Scan(|units|, o, maxRecords);
    var records := new RecordSet();
    index := 0;
    WindowStart(env, format, units, p, records);
    while true
      invariant WindowSoFar(env, format, units, p, records, index)
      invariant forall k :: 0 <= k < |records.records| ==> fresh(records.records[k])
      invariant fresh(records)
      decreases |units| - index
    {
      ghost var added;
      var next, done;
      next, done, added := WindowTurn(env, format, units, o, maxRecords, records, index, p);
      index := next;
      assert forall k :: 0 <= k < |records.records| ==> fresh(records.records[k]);
      if done.Some? {
        if done.value.Fail? {
          return Err(done.value.error), index;
        }
        WindowDone(Results(env, format, units), p.first, p.end, records.records);
        return Ok(records), index;
      }
    }
  }

  /**
   * The state of the windowed read loop before reading unit index: not at the end yet, and
   * one valid, new record per unit of the window read so far, record k being the record of
   * unit p.first + k.
   */
  ghost predicate WindowSoFar(env: Env, format: RecordFormat, units: seq<Unit>, p: Page, records: RecordSet, index: int)
    reads records, records.records
  {
    Fits(format, units) && 0 <= p.first <= p.end <= |units| && 0 <= index <= p.end && !records.eof &&
    |records.records| == (if index < p.first then 0 else index - p.first) &&
    Matches(Results(env, format, units), p.first, records.records)
  }

  /** The windowed read loop starts with an empty set that has not reached the end. */
  lemma WindowStart(env: Env, format: RecordFormat, units: seq<Unit>, p: Page, records: RecordSet)
    requires Fits(format, units) && 0 <= p.first <= p.end <= |units|
    requires records.records == [] && !records.eof
    ensures WindowSoFar(env, format, units, p, records, 0)
  {
  }

  /** Records matching every result of a window, in order, are the window Collect reads. */
  lemma WindowDone(results: seq<Result<RecordView>>, first: int, end: int, records: seq<Record>)
    requires 0 <= first <= end <= |results| && |records| == end - first
    requires Matches(results, first, records)
    ensures Collect(results[first..end]) == Ok(Views(records))
    ensures Distinct(records) && forall k :: 0 <= k < |records| ==> records[k].Valid()
  {
    var window := results[first..end];
    assert forall k :: 0 <= k < |window| ==> window[k] == results[first + k];
    CollectOk(window, Views(records));
  }

  /**
   * One turn of the windowed read loop at unit index: the end of the file sets eof; a unit
   * before the offset is passed over; the first unit past the window stops the loop; any
   * other is read and added, and a failure ends the load with Collect's error.
   */
  method WindowTurn(env: Env, format: RecordFormat, units: seq<Unit>, o: int, maxRecords: int, records: RecordSet, index: int, ghost p: Page)
      returns (next: int, done: Option<Outcome>, ghost added: seq<Record>)
    requires p == Scan(|units|, o, maxRecords) && WindowSoFar(env, format, units, p, records, index)
    modifies records
    ensures records.records == old(records.records) + added && forall k :: 0 <= k < |added| ==> fresh(added[k])
    ensures done.None? ==> index < next && WindowSoFar(env, format, units, p, records, next)
    ensures done == Some(Pass) ==>
              records.eof == p.eof && |records.records| == p.end - p.first &&
              (records.eof && next != 0 && |records.records| == 0 <==> Reloads(|units|, p)) &&
              Matches(Results(env, format, units), p.first, records.records)
    ensures done.Some? && done.value.Fail? ==> Collect(Results(env, format, units)[p.first..p.end]) == Err(done.value.error)
  {
    if index == |units| {
      records.SetEof(true);
      return index, Some(Pass), [];
    }
    if index < o {
      return index + 1, None, [];
    }
    if 0 < maxRecords && o + maxRecords <= index {
      return index + 1, Some(Pass), [];
    }
    assert InWindow(|units|, o, maxRecords, index);
    done, added := ReadInWindow(env, format, units, records, index, p);
    return index + 1, done, added;
  }

  /**
   * The windowed read loop at a unit inside the window: its record is read and added, or
   * the failure ends the load with Collect's error.
   */
  method ReadInWindow(env: Env, format: RecordFormat, units: seq<Unit>, records: RecordSet, index: int, ghost p: Page)
      returns (done: Option<Outcome>, ghost added: seq<Record>)
    requires WindowSoFar(env, format, units, p, records, index) && p.first <= index < p.end
    modifies records
    ensures records.records == old(records.records) + added && forall k :: 0 <= k < |added| ==> fresh(added[k])
    ensures done.None? ==> WindowSoFar(env, format, units, p, records, index + 1)
    ensures done.Some? ==> done.value.Fail? && Collect(Results(env, format, units)[p.first..p.end]) == Err(done.value.error)
  {
    var outcome;
    ResultsAt(env, format, units, index);
    outcome, added := AddUnit(env, format, units[index], records, Results(env, format, units), p.first);
    if outcome.Fail? {
      WindowFailure(Results(env, format, units), p.first, p.end, records.records, outcome.error);
      return Some(outcome), added;
    }
    return None, added;
  }

  /** A result of a window that fails, after records matching the results before it, fails the window with its error. */
  lemma WindowFailure(results: seq<Result<RecordView>>, first: int, end: int, records: seq<Record>, e: Error)
    requires Matches(results, first, records) && first + |records| < end <= |results|
    requires results[first + |records|] == Err(e)
    ensures Collect(results[first..end]) == Err(e)
  {
    var window := results[first..end];
    forall k | 0 <= k < |records|
      ensures window[k].Ok?
    {
      assert window[k] == results[first + k] == Ok(records[k].View());
    }
    assert window[|records|] == results[first + |records|];
    CollectFirstError(window, |records|);
  }


  /**
   * readRecord on the next unit u of a file and, when it succeeds, recordSet.add: the new
   * record follows those before it, which stay as they are; a failure adds nothing. Record k
   * of the set is result first + k, u's result being the next one.
   */
  method AddUnit(env: Env, format: RecordFormat, u: Unit, records: RecordSet, ghost results: seq<Result<RecordView>>, ghost first: int)
      returns (r: Outcome, ghost added: seq<Record>)
    requires u.LineUnit? ==> IsLineReader(format.readerClass)
    requires Matches(results, first, records.records) && first + |records.records| < |results|
    requires results[first + |records.records|] == UnitRecord(env, format, u)
    modifies records
    ensures records.path == old(records.path) && records.eof == old(records.eof) &&
            records.offset == old(records.offset) && records.format == old(records.format)
    ensures records.records == old(records.records) + added && forall k :: 0 <= k < |added| ==> fresh(added[k])
    ensures r.Fail? ==> added == [] && results[first + |old(records.records)|] == Err(r.error)
    ensures r.Pass? ==> |added| == 1
    ensures Matches(results, first, records.records)
  {
    var rec := ReadUnit(env, format, u);
    if rec.Err? {
      return Fail(rec.error), [];
    }
    assert rec.value !in records.records;
    AppendMatching(results, first, records, rec.value);
    return Pass, [rec.value];
  }

  /** recordSet.add of a new record that is the next result: the records still match the results. */
  method AppendMatching(ghost results: seq<Result<RecordView>>, ghost first: int, records: RecordSet, r: Record)
    requires Matches(results, first, records.records) && first + |records.records| < |results|
    requires r.Valid() && r !in records.records && results[first + |records.records|] == Ok(r.View())
    modifies records
    ensures records.records == old(records.records) + [r]
    ensures records.path == old(records.path) && records.eof == old(records.eof) &&
            records.offset == old(records.offset) && records.format == old(records.format)
    ensures Matches(results, first, records.records)
  {
    MatchesAppend(results, first, records.records, r);
    records.Add(r);
  }

  /** load(path, format, offset, maxRecords) of the line readers over the lines of a file. */
  method LoadLines(env: Env, format: RecordFormat, path: string, lines: seq<string>, offset: int, maxRecords: int) returns (r: Result<RecordSet>)
    requires IsLineReader(format.readerClass)
    ensures var w := WindowLoad(env, format, LineUnits(lines), offset, maxRecords);
            (w.Err? ==> r == Err(w.error)) &&
            (w.Ok? ==> r.Ok? && fresh(r.value) && Views(r.value.records) == w.value.1 &&
                       r.value.eof == w.value.0.eof && r.value.offset == w.value.0.offset &&
                       r.value.path == Some(path) && r.value.format == Some(format))
  {
    r := LoadPage(env, format, path, LineUnits(lines), offset, maxRecords);
  }

  /**
   * load(path, format, offset, maxRecords) of VariableBytesReader when its read script yields the
   * payloads and then ends with `ending` (as for StreamPayloads). The script's end is met by
   * every pass that reads to the end of the file: the counting pass of offset -1, and a read
   * pass whose window reaches the end (Scan's eof); a throw there ends the load, unless a record
   * of the window, read before it, failed first. A pass that stops at the window's end never
   * meets it, and a reload only follows a pass that met it.
   */
  function PayloadLoad(env: Env, format: RecordFormat, payloads: seq<seq<int8>>, ending: Outcome,
                       offset: int, maxRecords: int): Result<(Page, seq<RecordView>)>
  {
    var units := PayloadUnits(payloads);
    var p := Scan(|units|, offset, maxRecords);
    if ending.Fail? && (offset == -1 || p.eof) then
      var w := Collect(Results(env, format, units)[p.first..p.end]);
      if offset != -1 && w.Err? then Err(w.error) else Err(ending.error)
    else
      WindowLoad(env, format, units, offset, maxRecords)
  }

  /**
   * A read script that ends with null leaves the load as WindowLoad has it; one that throws
   * fails the counting pass of offset -1 and every page that reaches the end of the file, and
   * changes nothing else: a page that loads is WindowLoad's, and it never has eof set.
   */
  lemma PayloadLoadEnding(env: Env, format: RecordFormat, payloads: seq<seq<int8>>, ending: Outcome,
                          offset: int, maxRecords: int)
    ensures var r := PayloadLoad(env, format, payloads, ending, offset, maxRecords);
            var w := WindowLoad(env, format, PayloadUnits(payloads), offset, maxRecords);
            (ending.Pass? ==> r == w) &&
            (r.Ok? ==> r == w && (ending.Fail? ==> !r.value.0.eof)) &&
            (ending.Fail? && offset == -1 ==> r == Err(ending.error)) &&
            (ending.Fail? && w.Ok? && (offset == -1 || w.value.0.eof) ==> r == Err(ending.error))
  {
    var units := PayloadUnits(payloads);
    var p := Scan(|units|, offset, maxRecords);
    if ending.Fail? && offset != -1 && !p.eof {
      assert !Reloads(|units|, p);
      assert PagedLoad(|units|, offset, maxRecords) == Ok(p);
    }
    if ending.Fail? && offset != -1 && p.eof && WindowLoad(env, format, units, offset, maxRecords).Ok? {
      if !Reloads(|units|, p) {
        assert PagedLoad(|units|, offset, maxRecords) == Ok(p);
      } else {
        assert p.first == p.end;
        assert Results(env, format, units)[p.first..p.end] == [];
      }
    }
  }

  /**
   * With no window (offset 0, maxRecords 0) the load reads what the streaming load hands on:
   * it loads exactly when the stream ends with Pass, with the same records, and otherwise
   * fails with the stream's error.
   */
  lemma UnboundedPayloadLoadIsStream(env: Env, format: RecordFormat, payloads: seq<seq<int8>>, ending: Outcome)
    requires !IsLineReader(format.readerClass)
    ensures var w := PayloadLoad(env, format, payloads, ending, 0, 0);
            var c := Consume(Results(env, format, PayloadUnits(payloads)));
            var o := if c.1.Pass? then ending else c.1;
            (w.Ok? <==> o.Pass?) && (w.Ok? ==> w.value.1 == c.0) && (w.Err? ==> w.error == o.error)
  {
    var units := PayloadUnits(payloads);
    var results := Results(env, format, units);
    UnboundedWindowIsStream(env, format, units);
    ConsumeIsCollect(results);
    var p := Scan(|units|, 0, 0);
    assert results[p.first..p.end] == results;
  }

  /**
   * load(path, format, offset, maxRecords) of VariableBytesReader over the payloads its read
   * script yields before it ends with `ending`.
   */
  method LoadPayloads(env: Env, format: RecordFormat, path: string, payloads: seq<seq<int8>>, ending: Outcome,
                      offset: int, maxRecords: int) returns (r: Result<RecordSet>)
    ensures var w := PayloadLoad(env, format, payloads, ending, offset, maxRecords);
            (w.Err? ==> r == Err(w.error)) &&
            (w.Ok? ==> r.Ok? && fresh(r.value) && Views(r.value.records) == w.value.1 &&
                       r.value.eof == w.value.0.eof && r.value.offset == w.value.0.offset &&
                       r.value.path == Some(path) && r.value.format == Some(format))
  {
    var units := PayloadUnits(payloads);
    if ending.Fail? && (offset == -1 || Scan(|units|, offset, maxRecords).eof) {
      if offset != -1 {
        var first, _ := ReadWindow(env, format, units, offset, maxRecords);
        if first.Err? {
          return Err(first.error);
        }
      }
      return Err(ending.error);
    }
    r := LoadPage(env, format, path, units, offset, maxRecords);
  }


  /** getRecordSize: the recordSize option as a Java int; a missing or malformed one is a RuntimeException. */
  function RecordSize(format: RecordFormat): (r: Result<int>)
    ensures r.Ok? <==> "recordSize" in format.readerOptions && ParseInt(format.readerOptions["recordSize"]).Ok?
    ensures r.Ok? ==> r.value == ParseInt(format.readerOptions["recordSize"]).value && InInt32(r.value)
    ensures r.Err? ==> r.error == Runtime(RecordSizeMessage)
  {
    if "recordSize" !in format.readerOptions then Err(Runtime(RecordSizeMessage))
    else match ParseInt(format.readerOptions["recordSize"])
      case Err(_) => Err(Runtime(RecordSizeMessage))
      case Ok(v) => Ok(v)
  }

  /** The size bytes at start, or nothing when they do not lie inside the data. */
  function Chunk(data: seq<int8>, start: int, size: nat): (c: seq<int8>)
    ensures 0 <= start && start + size <= |data| ==> c == data[start..start + size]
  {
    if 0 <= start && start + size <= |data| then data[start..start + size] else []
  }

  /** Record i of a file of recordSize-byte records: its bytes, or nothing when it is not wholly inside the file. */
  function ChunkAt(data: seq<int8>, recordSize: nat, i: int): seq<int8> {
    Chunk(data, i * recordSize, recordSize)
  }

  /** A record index below the count of full records is a full chunk of the file. */
  lemma ChunkAtInside(data: seq<int8>, recordSize: int, i: int)
    requires recordSize > 0 && 0 <= i < |data| / recordSize
    ensures 0 <= i * recordSize && (i + 1) * recordSize <= |data|
    ensures ChunkAt(data, recordSize, i) == data[i * recordSize..(i + 1) * recordSize]
  {
    FullRecordAt(|data|, recordSize, i);
    assert (i + 1) * recordSize == i * recordSize + recordSize;
  }

  /** The count records of recordSize bytes from record index first, as units. */
  function FixedUnits(data: seq<int8>, recordSize: nat, first: int, count: nat): (us: seq<Unit>)
    ensures |us| == count && forall k :: 0 <= k < count ==> us[k] == BytesUnit(ChunkAt(data, recordSize, first + k))
  {
    seq(count, k requires 0 <= k < count => BytesUnit(ChunkAt(data, recordSize, first + k)))
  }

  /** Every full record of a file of recordSize-byte records, in order; a trailing partial record is none. */
  function FileUnits(data: seq<int8>, recordSize: int): (us: seq<Unit>)
    requires recordSize > 0
    ensures |us| * recordSize <= |data| < (|us| + 1) * recordSize
  {
    FixedUnits(data, recordSize, 0, |data| / recordSize)
  }

  /**
   * The windowed load of FixedBytesReader: the record size, then FixedLoad's window, each
   * record of the window read from its own chunk of the file. A zero record size with an
   * unbounded window never ends unless reading the empty record fails.
   */
  function FixedWindow(env: Env, format: RecordFormat, data: seq<int8>, offset: int, maxRecords: int): (r: Result<(FixedPage, seq<RecordView>)>)
    ensures r.Ok? ==> |r.value.1| == r.value.0.count
    ensures RecordSize(format).Ok? && RecordSize(format).value < 0 ==> r == Err(NegativeArraySize)
  {
    var recordSize :- RecordSize(format);
    var p := FixedLoad(|data|, recordSize, offset, maxRecords);
    if p == Err(NonTermination) then
      var empty :- PayloadRecord(env, format, []);
      Err(NonTermination)
    else
      var page :- p;
      var views :- Collect(Results(env, format, FixedUnits(data, recordSize, SkipTo(page.offset), page.count)));
      Ok((page, views))
  }

  /**
   * The records of a fixed window: record k is the record of the chunk of record index
   * SkipTo(offset) + k (offset + k unless the offset is negative), which lies wholly inside the file.
   */
  lemma FixedWindowRecords(env: Env, format: RecordFormat, data: seq<int8>, offset: int, maxRecords: int, k: nat)
    requires FixedWindow(env, format, data, offset, maxRecords).Ok?
    requires k < |FixedWindow(env, format, data, offset, maxRecords).value.1|
    ensures var rs := RecordSize(format).value;
            var w := FixedWindow(env, format, data, offset, maxRecords).value;
            rs >= 0 && FixedLoad(|data|, rs, offset, maxRecords) == Ok(w.0) && k < w.0.count &&
            (rs > 0 ==> SkipTo(w.0.offset) + k < |data| / rs) &&
            PayloadRecord(env, format, ChunkAt(data, rs, SkipTo(w.0.offset) + k)) == Ok(w.1[k])
  {
    FixedWindowOk(env, format, data, offset, maxRecords);
    var rs := RecordSize(format).value;
    var w := FixedWindow(env, format, data, offset, maxRecords).value;
    var units := FixedUnits(data, rs, SkipTo(w.0.offset), w.0.count);
    CollectAt(Results(env, format, units), w.1, k);
    ResultsAt(env, format, units, k);
    if rs > 0 {
      FixedPageWithinFile(|data|, rs, offset, maxRecords);
    }
  }

  /** A fixed window that loads is the page FixedLoad decides and the collected records of its chunks. */
  lemma FixedWindowOk(env: Env, format: RecordFormat, data: seq<int8>, offset: int, maxRecords: int)
    requires FixedWindow(env, format, data, offset, maxRecords).Ok?
    ensures RecordSize(format).Ok? && RecordSize(format).value >= 0
    ensures var rs := RecordSize(format).value;
            var w := FixedWindow(env, format, data, offset, maxRecords).value;
            FixedLoad(|data|, rs, offset, maxRecords) == Ok(w.0) &&
            Collect(Results(env, format, FixedUnits(data, rs, SkipTo(w.0.offset), w.0.count))) == Ok(w.1)
  {
  }

  /**
   * The streaming load of FixedBytesReader: every full chunk of recordSize bytes, in order,
   * until a short read. A zero record size reads the empty record for ever, unless reading
   * it fails.
   */
  function FixedStream(env: Env, format: RecordFormat, data: seq<int8>): (r: (seq<RecordView>, Outcome))
    ensures r.1.Pass? ==> RecordSize(format).Ok? && RecordSize(format).value > 0
    ensures RecordSize(format).Ok? && RecordSize(format).value > 0 ==> |r.0| * RecordSize(format).value <= |data|
  {
    match RecordSize(format)
    case Err(e) => ([], Fail(e))
    case Ok(rs) =>
      if rs < 0 then ([], Fail(NegativeArraySize))
      else if rs == 0 then
        (match PayloadRecord(env, format, []) case Err(e) => ([], Fail(e)) case Ok(_) => ([], Fail(NonTermination)))
      else
        var units := FileUnits(data, rs);
        var c := Consume(Results(env, format, units));
        MulMonotone(|c.0|, |units|, rs);
        c
  }

  /**
   * Loading a fixed-size file from record 0 with an unbounded window reads the same records,
   * in the same order, as the streaming load.
   */
  lemma UnboundedFixedWindowIsStream(env: Env, format: RecordFormat, data: seq<int8>)
    requires RecordSize(format).Ok? && RecordSize(format).value > 0
    ensures var w := FixedWindow(env, format, data, 0, 0);
            var c := FixedStream(env, format, data);
            (w.Ok? <==> c.1.Pass?) &&
            (w.Ok? ==> w.value.1 == c.0 && w.value.0.eof && w.value.0.offset == 0) &&
            (w.Err? ==> w.error == c.1.error)
  {
    var rs := RecordSize(format).value;
    var page := FixedPage(0, |data| / rs, true);
    assert FixedLoad(|data|, rs, 0, 0) == Ok(page);
    var results := Results(env, format, FileUnits(data, rs));
    ConsumeIsCollect(results);
    assert FixedStream(env, format, data) == Consume(results);
    if Collect(results).Ok? {
      assert FixedWindow(env, format, data, 0, 0) == Ok((page, Collect(results).value));
    } else {
      assert FixedWindow(env, format, data, 0, 0) == Err(Collect(results).error);
    }
  }

  /**
   * InputStream.read(buffer) at byte position pos of a file: a zero-length buffer reads 0
   * bytes; at the end of the file nothing is read and -1 comes back; otherwise the next
   * min(buffer.Length, remaining) bytes are copied to the front of the buffer, the rest of
   * which keeps its old content.
   */
  method Read(data: seq<int8>, pos: int, buffer: array<int8>) returns (n: int)
    requires 0 <= pos
    modifies buffer
    ensures buffer.Length == 0 ==> n == 0
    ensures buffer.Length > 0 && |data| <= pos ==> n == -1 && buffer[..] == old(buffer[..])
    ensures buffer.Length > 0 && pos < |data| ==>
              n == Min(buffer.Length, |data| - pos) && buffer[..n] == data[pos..pos + n] && buffer[n..] == old(buffer[n..])
    ensures buffer[..] == ReadInto(data, pos, old(buffer[..]))
  {
    if buffer.Length == 0 {
      return 0;
    }
    if |data| <= pos {
      return -1;
    }
    n := Min(buffer.Length, |data| - pos);
    forall i | 0 <= i < n {
      buffer[i] := data[pos + i];
    }
  }

  /**
   * The bytes a buffer holds after InputStream.read at byte position pos, as Read leaves it:
   * the bytes read at the front, the old content behind them.
   */
  function ReadInto(data: seq<int8>, pos: int, buf: seq<int8>): (r: seq<int8>)
    requires 0 <= pos
    ensures |r| == |buf|
    ensures |buf| == 0 || |data| <= pos ==> r == buf
    ensures pos + |buf| <= |data| ==> r == data[pos..pos + |buf|]
  {
    if |buf| == 0 || |data| <= pos then buf
    else
      var n := Min(|buf|, |data| - pos);
      data[pos..pos + n] + buf[n..]
  }

  /**
   * The one array FixedBytesReader's windowed load allocates (buf, recordSize bytes), after
   * `count` reads of its length from byte position pos on: the load hands this same array to
   * every record it builds, so when the load returns, each record's raw data is the array's
   * last content.
   */
  function SharedBuffer(data: seq<int8>, pos: nat, count: nat, buf: seq<int8>): (r: seq<int8>)
    ensures |r| == |buf|
    decreases count
  {
    if count == 0 then buf
    else SharedBuffer(data, pos + |buf|, count - 1, ReadInto(data, pos, buf))
  }

  /**
   * On the two-byte file [1, 2] with a record size of 1, offset 0 and no bound, the windowed
   * load reads two records and a third, -1, read; with the buffer shared, both records hold
   * [2], although the first record's chunk of the file is [1].
   */
  lemma SharedBufferLosesFirstRecord()
    ensures var data: seq<int8> := [1, 2];
            FixedLoad(|data|, 1, 0, 0) == Ok(FixedPage(0, 2, true)) &&
            SharedBuffer(data, 0, 3, [0]) == [2] && ChunkAt(data, 1, 0) == [1]
  {
    var data: seq<int8> := [1, 2];
    assert ReadInto(data, 0, [0]) == [1];
    assert ReadInto(data, 1, [1]) == [2];
    assert ReadInto(data, 2, [2]) == [2];
  }

  /**
   * The streaming load of FixedBytesReader: the record size, the buffer allocated, then the
   * read loop; a zero record size reads the empty record for ever, unless reading it fails.
   */
  method StreamFixed(env: Env, format: RecordFormat, data: seq<int8>) returns (out: seq<Record>, r: Outcome)
    ensures forall k :: 0 <= k < |out| ==> fresh(out[k]) && out[k].Valid()
    ensures Distinct(out)
    ensures (Views(out), r) == FixedStream(env, format, data)
  {
    var option := RecordSize(format);
    if option.Err? {
      return [], Fail(option.error);
    }
    var recordSize := option.value;
    if recordSize < 0 {
      return [], Fail(NegativeArraySize);
    }
    var buffer := new int8[recordSize];
    if recordSize == 0 {
      // every read into the empty buffer returns 0, the record size, so the same empty record
      // is handed over again and again unless reading it throws
      var empty := ReadPayloadRecord(env, format, []);
      if empty.Err? {
        return [], Fail(empty.error);
      }
      return [], Fail(NonTermination);
    }
    out, r := StreamChunks(env, format, data, buffer);
  }

  /**
   * The streaming load's read loop over a file of fixed-size records: each full read into
   * the one buffer is handed to the consumer as a record, a short read ends the load.
   */
  method StreamChunks(env: Env, format: RecordFormat, data: seq<int8>, buffer: array<int8>) returns (out: seq<Record>, r: Outcome)
    requires buffer.Length > 0
    modifies buffer
    ensures forall k :: 0 <= k < |out| ==> fresh(out[k]) && out[k].Valid()
    ensures Distinct(out)
    ensures (Views(out), r) == Consume(Results(env, format, FileUnits(data, buffer.Length)))
  {
    ghost var units := FileUnits(data, buffer.Length);
    out := [];
    while true
      invariant |out| <= |units|
      invariant Matches(Results(env, format, units), 0, out)
      invariant forall k :: 0 <= k < |out| ==> fresh(out[k])
      decreases |units| - |out|
    {
      var next, stop := NextChunk(env, format, data, buffer, units, out);
      if stop.Some? {
        return out, stop.value;
      }
      out := out + [next.value];
    }
  }

  /**
   * One turn of the streaming read loop after the records before it: a short read stops the
   * load with what was read, a record that fails to read stops it with the failure, and
   * otherwise the new record is appended.
   */
  method NextChunk(env: Env, format: RecordFormat, data: seq<int8>, buffer: array<int8>, ghost units: seq<Unit>, out: seq<Record>)
      returns (next: Option<Record>, stop: Option<Outcome>)
    requires buffer.Length > 0 && units == FileUnits(data, buffer.Length) && Fits(format, units)
    requires |out| <= |units|
    requires Matches(Results(env, format, units), 0, out)
    modifies buffer
    ensures stop.Some? ==> (Views(out), stop.value) == Consume(Results(env, format, units))
    ensures stop.None? ==> next.Some? && fresh(next.value) && |out| + 1 <= |units| &&
                           Matches(Results(env, format, units), 0, out + [next.value])
  {
    // the stream stands after the |out| records read so far
    ghost var results := Results(env, format, units);
    var n, rec := ReadChunk(env, format, data, buffer, units, |out|, |out| * buffer.Length);
    assert Matches(results, 0, out) && |results| == |units|;
    if rec.None? {
      StreamDone(Results(env, format, units), out);
      return None, Some(Pass);
    }
    if rec.value.Err? {
      StreamFailure(Results(env, format, units), out, rec.value.error);
      return None, Some(Fail(rec.value.error));
    }
    assert rec.value.value !in out;
    MatchesAppend(Results(env, format, units), 0, out, rec.value.value);
    next, stop := Some(rec.value.value), None;
  }

  /** A valid record that is none of rs and is the record of the next unit extends the match. */
  lemma MatchesAppend(results: seq<Result<RecordView>>, first: int, rs: seq<Record>, r: Record)
    requires Matches(results, first, rs) && first + |rs| < |results|
    requires r.Valid() && r !in rs && results[first + |rs|] == Ok(r.View())
    ensures Matches(results, first, rs + [r])
  {
    DistinctAppend(rs, r);
    var more := rs + [r];
    forall k | 0 <= k < |more|
      ensures more[k].Valid() && results[first + k] == Ok(more[k].View())
    {
      if k < |rs| {
        assert more[k] == rs[k];
      }
    }
  }

  /** A record that is none of rs keeps rs with it appended free of repeats. */
  lemma DistinctAppend(rs: seq<Record>, r: Record)
    requires Distinct(rs) && r !in rs
    ensures Distinct(rs + [r])
  {
    var more := rs + [r];
    forall i, j | 0 <= i < j < |more|
      ensures more[i] != more[j]
    {
      assert more[i] == rs[i];
      if j < |rs| {
        assert more[j] == rs[j];
      }
    }
  }

  /** Records matching every unit are all the consumer is handed, and the load passes. */
  lemma StreamDone(results: seq<Result<RecordView>>, out: seq<Record>)
    requires Matches(results, 0, out) && |out| == |results|
    ensures Consume(results) == (Views(out), Pass)
  {
    ConsumeAll(results, Views(out));
  }

  /** After records matching the units before it, a unit that fails to read stops the consumer with its failure. */
  lemma StreamFailure(results: seq<Result<RecordView>>, out: seq<Record>, e: Error)
    requires Matches(results, 0, out) && |out| < |results| && results[|out|] == Err(e)
    ensures Consume(results) == (Views(out), Fail(e))
  {
    ConsumeUntil(results, Views(out), |out|);
  }

  /**
   * One turn of the streaming read loop: read(buffer) at the position of record i; a full
   * read is record i of the file, read into a new record, a short one is the end of the file.
   */
  method ReadChunk(env: Env, format: RecordFormat, data: seq<int8>, buffer: array<int8>, ghost units: seq<Unit>, ghost i: nat, pos: int)
      returns (n: int, rec: Option<Result<Record>>)
    requires buffer.Length > 0 && pos == i * buffer.Length && i <= |units|
    requires units == FileUnits(data, buffer.Length)
    modifies buffer
    ensures rec.None? <==> i == |units|
    ensures rec.Some? ==> n == buffer.Length && pos + n == (i + 1) * buffer.Length
    ensures rec.Some? && rec.value.Ok? ==>
              fresh(rec.value.value) && rec.value.value.Valid() && Results(env, format, units)[i] == Ok(rec.value.value.View())
    ensures rec.Some? && rec.value.Err? ==> Results(env, format, units)[i] == Err(rec.value.error)
  {
    var recordSize := buffer.Length;
    n := Read(data, pos, buffer);
    assert (i + 1) * recordSize == pos + recordSize;
    FullRecordAt(|data|, recordSize, i);
    if n != recordSize {
      return n, None;
    }
    assert buffer[..] == ChunkAt(data, recordSize, i);
    var r := ReadUnitAt(env, format, units, i, BytesUnit(buffer[..]));
    return n, Some(r);
  }

  /** The read loop of the windowed fixed load ends where FixedRun's window does. */
  lemma FixedLoopEnd(size: nat, recordSize: nat, o: int, maxRecords: int, index: int, eof: bool)
    requires recordSize == 0 ==> 0 < maxRecords
    requires o <= index && (0 < maxRecords ==> index <= o + maxRecords)
    requires index > o && recordSize > 0 ==> StreamRecord(o, index) * recordSize <= size
    requires eof ==> recordSize > 0 && size < (StreamRecord(o, index) + 1) * recordSize
    requires !eof ==> 0 < maxRecords && index == o + maxRecords && (recordSize > 0 ==> (StreamRecord(o, index) + 1) * recordSize <= size)
    ensures FixedRun(size, recordSize, o, maxRecords) == FixedPage(o, index - o, eof)
  {
    if recordSize > 0 {
      var j := StreamRecord(o, index);
      FullRecordAt(size, recordSize, j);
      if index > o {
        OffsetWithin(size, recordSize, j);
      }
    }
  }

  /** A full record read inside the window lies before the window's end. */
  lemma FixedLoopInside(size: nat, recordSize: nat, o: int, maxRecords: int, index: int)
    requires recordSize == 0 ==> 0 < maxRecords
    requires o <= index && (0 < maxRecords ==> index < o + maxRecords)
    requires recordSize > 0 ==> (StreamRecord(o, index) + 1) * recordSize <= size
    ensures index - o < FixedRun(size, recordSize, o, maxRecords).count
  {
    if recordSize > 0 {
      FullRecordAt(size, recordSize, StreamRecord(o, index));
    }
  }

  /**
   * The read loop of FixedBytesReader's windowed load from offset o, the stream skipped to
   * record SkipTo(o) and the index counted from o: each full read
   * into the buffer becomes a record over a copy of the buffer, until a short read (eof) or
   * maxRecords records.
   */
  method ReadFixedRun(env: Env, format: RecordFormat, data: seq<int8>, buffer: array<int8>, o: int, maxRecords: int) returns (r: Result<RecordSet>)
    requires buffer.Length == 0 ==> 0 < maxRecords
    modifies buffer
    ensures var p := FixedRun(|data|, buffer.Length, o, maxRecords);
            var w := Collect(Results(env, format, FixedUnits(data, buffer.Length, SkipTo(o), p.count)));
            (w.Err? ==> r == Err(w.error)) &&
            (w.Ok? ==> r.Ok? && fresh(r.value) && Views(r.value.records) == w.value && r.value.eof == p.eof)
    ensures r.Ok? ==> Distinct(r.value.records) && forall k :: 0 <= k < |r.value.records| ==> r.value.records[k].Valid()
    ensures r.Ok? ==> forall k :: 0 <= k < |r.value.records| ==> fresh(r.value.records[k])
  {
    ghost var p := FixedRun(|data|, buffer.Length, o, maxRecords);
    ghost var units := FixedUnits(data, buffer.Length, SkipTo(o), p.count);
    var records := new RecordSet();
    // skip(recordSize * offset): a negative count skips nothing
    var skip := buffer.Length * o;
    var pos := if skip < 0 then 0 else skip;
    SkipStart(buffer.Length, o);
    FixedSoFarStart(env, format, data, buffer.Length, o, maxRecords, p, units, records, pos);
    var outcome := FixedReadLoop(env, format, data, buffer, o, maxRecords, records, pos, p, units);
    if outcome.Fail? {
      return Err(outcome.error);
    }
    AllMatch(Results(env, format, units), records.records);
    return Ok(records);
  }

  /**
   * The while loop of the windowed fixed load, from the skipped-to position with no record
   * read: it ends with every record of the run read, or with Collect's failure.
   */
  method FixedReadLoop(env: Env, format: RecordFormat, data: seq<int8>, buffer: array<int8>, o: int, maxRecords: int,
                       records: RecordSet, pos: int, ghost p: FixedPage, ghost units: seq<Unit>)
      returns (outcome: Outcome)
    requires buffer.Length == 0 ==> 0 < maxRecords
    requires p == FixedRun(|data|, buffer.Length, o, maxRecords) && units == FixedUnits(data, buffer.Length, SkipTo(o), p.count)
    requires FixedSoFar(env, format, data, buffer.Length, o, maxRecords, p, units, records, o, pos) && records.records == []
    modifies buffer, records
    ensures outcome.Pass? ==>
              records.eof == p.eof && |records.records| == p.count && Matches(Results(env, format, units), 0, records.records)
    ensures outcome.Fail? ==> Collect(Results(env, format, units)) == Err(outcome.error)
    ensures forall k :: 0 <= k < |records.records| ==> fresh(records.records[k])
  {
    var index, at := o, pos;
    while true
      invariant FixedSoFar(env, format, data, buffer.Length, o, maxRecords, p, units, records, index, at)
      invariant forall k :: 0 <= k < |records.records| ==> fresh(records.records[k])
      decreases if buffer.Length == 0 then o + maxRecords - index else |data| - at
    {
      ghost var added;
      var done;
      done, added := FixedTurn(env, format, data, buffer, o, maxRecords, records, index, at, p, units);
      if done.Some? {
        return done.value;
      }
      at, index := at + buffer.Length, index + 1;
    }
  }

  /** Before the first read, the stream stands at record SkipTo(o) and no record is read. */
  lemma FixedSoFarStart(env: Env, format: RecordFormat, data: seq<int8>, recordSize: nat, o: int, maxRecords: int,
                        p: FixedPage, units: seq<Unit>, records: RecordSet, pos: int)
    requires recordSize == 0 ==> 0 < maxRecords
    requires p == FixedRun(|data|, recordSize, o, maxRecords) && units == FixedUnits(data, recordSize, SkipTo(o), p.count)
    requires pos == SkipTo(o) * recordSize && records.records == [] && !records.eof
    ensures FixedSoFar(env, format, data, recordSize, o, maxRecords, p, units, records, o, pos)
  {
    assert StreamRecord(o, o) == SkipTo(o);
  }

  /** The record after the one starting at pos starts recordSize bytes later. */
  lemma NextRecordStart(i: int, recordSize: nat, pos: int)
    requires pos == i * recordSize
    ensures (i + 1) * recordSize == pos + recordSize
  {
  }

  /** The record of the file the stream stands at when the loop's index, counted from o, is index. */
  function StreamRecord(o: int, index: int): int
  {
    SkipTo(o) + index - o
  }

  /** Skipping recordSize * o bytes, where a negative count skips nothing, reaches record SkipTo(o). */
  lemma SkipStart(recordSize: nat, o: int)
    ensures (if recordSize * o < 0 then 0 else recordSize * o) == SkipTo(o) * recordSize
  {
    if o < 0 && recordSize > 0 {
      assert recordSize * o == -(recordSize * -o);
    }
  }

  /**
   * The state of the fixed read loop before the read at record index: the file position is
   * the start of record StreamRecord(o, index), and record k of the set is the record of unit k of the window.
   */
  ghost predicate FixedSoFar(env: Env, format: RecordFormat, data: seq<int8>, recordSize: nat, o: int, maxRecords: int,
                             p: FixedPage, units: seq<Unit>, records: RecordSet, index: int, pos: int)
    reads records, records.records
  {
    Fits(format, units) && |units| == p.count &&
    0 <= pos == StreamRecord(o, index) * recordSize && o <= index && index - o == |records.records| <= p.count &&
    (0 < maxRecords ==> index <= o + maxRecords) && (|records.records| > 0 ==> pos <= |data|) &&
    !records.eof && Matches(Results(env, format, units), 0, records.records)
  }

  /**
   * One turn of the fixed read loop: a short read sets eof and ends the loop, reaching
   * maxRecords ends it, and otherwise the buffer's record is read and added, a failure
   * ending the load with Collect's error.
   */
  method FixedTurn(env: Env, format: RecordFormat, data: seq<int8>, buffer: array<int8>, o: int, maxRecords: int,
                   records: RecordSet, index: int, pos: int, ghost p: FixedPage, ghost units: seq<Unit>)
      returns (done: Option<Outcome>, ghost added: seq<Record>)
    requires buffer.Length == 0 ==> 0 < maxRecords
    requires p == FixedRun(|data|, buffer.Length, o, maxRecords) && units == FixedUnits(data, buffer.Length, SkipTo(o), p.count)
    requires FixedSoFar(env, format, data, buffer.Length, o, maxRecords, p, units, records, index, pos)
    modifies buffer, records
    ensures records.records == old(records.records) + added && forall k :: 0 <= k < |added| ==> fresh(added[k])
    ensures done.None? ==> FixedSoFar(env, format, data, buffer.Length, o, maxRecords, p, units, records, index + 1, pos + buffer.Length) &&
                           (if buffer.Length == 0 then o + maxRecords - index > 0 else |data| - pos > 0)
    ensures done == Some(Pass) ==>
              records.eof == p.eof && |records.records| == p.count && Matches(Results(env, format, units), 0, records.records)
    ensures done.Some? && done.value.Fail? ==> Collect(Results(env, format, units)) == Err(done.value.error)
  {
    NextRecordStart(StreamRecord(o, index), buffer.Length, pos);
    var n := Read(data, pos, buffer);
    if n != buffer.Length {
      EndFixedLoop(Results(env, format, units), |data|, buffer.Length, o, maxRecords, records, index, p, true);
      return Some(Pass), [];
    }
    if 0 < maxRecords && o + maxRecords <= index {
      EndFixedLoop(Results(env, format, units), |data|, buffer.Length, o, maxRecords, records, index, p, false);
      return Some(Pass), [];
    }
    FixedInsideStep(data, buffer.Length, o, maxRecords, index, pos, p, units, buffer[..]);
    done, added := ReadFixedInside(env, format, data, buffer, o, maxRecords, records, index, pos, p, units);
  }

  /**
   * The end of the fixed read loop, by a short read (eof set) or by reaching maxRecords: the
   * records read so far are the whole run, and eof is the run's.
   */
  method EndFixedLoop(ghost results: seq<Result<RecordView>>, size: nat, recordSize: nat, o: int, maxRecords: int,
                      records: RecordSet, index: int, ghost p: FixedPage, eof: bool)
    requires recordSize == 0 ==> 0 < maxRecords
    requires o <= index && (0 < maxRecords ==> index <= o + maxRecords)
    requires index > o && recordSize > 0 ==> StreamRecord(o, index) * recordSize <= size
    requires eof ==> recordSize > 0 && size < (StreamRecord(o, index) + 1) * recordSize
    requires !eof ==> 0 < maxRecords && index == o + maxRecords && (recordSize > 0 ==> (StreamRecord(o, index) + 1) * recordSize <= size)
    requires p == FixedRun(size, recordSize, o, maxRecords)
    requires index - o == |records.records| && !records.eof && Matches(results, 0, records.records)
    modifies records
    ensures records.records == old(records.records) && records.eof == p.eof && |records.records| == p.count
    ensures Matches(results, 0, records.records)
  {
    if eof {
      records.SetEof(true);
    }
    FixedLoopEnd(size, recordSize, o, maxRecords, index, eof);
  }

  /** The fixed read loop after a full read inside the window: the buffer's record is read and added. */
  method ReadFixedInside(env: Env, format: RecordFormat, data: seq<int8>, buffer: array<int8>, o: int, maxRecords: int,
                         records: RecordSet, index: int, pos: int, ghost p: FixedPage, ghost units: seq<Unit>)
      returns (done: Option<Outcome>, ghost added: seq<Record>)
    requires FixedSoFar(env, format, data, buffer.Length, o, maxRecords, p, units, records, index, pos)
    requires 0 < maxRecords ==> index < o + maxRecords
    requires index - o < |units| && units[index - o] == BytesUnit(buffer[..])
    requires pos + buffer.Length == StreamRecord(o, index + 1) * buffer.Length && pos + buffer.Length <= |data|
    modifies records
    ensures records.records == old(records.records) + added && forall k :: 0 <= k < |added| ==> fresh(added[k])
    ensures done.None? ==> FixedSoFar(env, format, data, buffer.Length, o, maxRecords, p, units, records, index + 1, pos + buffer.Length)
    ensures done.Some? ==> done.value.Fail? && Collect(Results(env, format, units)) == Err(done.value.error)
  {
    var outcome;
    ResultsAt(env, format, units, index - o);
    outcome, added := AddUnit(env, format, BytesUnit(buffer[..]), records, Results(env, format, units), 0);
    if outcome.Fail? {
      PrefixFailure(Results(env, format, units), records.records, outcome.error);
      return Some(outcome), added;
    }
    return None, added;
  }

  /** A full read inside the page holds the unit of record index, and the loop's position moves past it. */
  lemma FixedInsideStep(data: seq<int8>, recordSize: nat, o: int, maxRecords: int, index: int, pos: int,
                        p: FixedPage, units: seq<Unit>, chunk: seq<int8>)
    requires recordSize == 0 ==> 0 < maxRecords
    requires p == FixedRun(|data|, recordSize, o, maxRecords) && units == FixedUnits(data, recordSize, SkipTo(o), p.count)
    requires 0 <= pos == StreamRecord(o, index) * recordSize && o <= index
    requires 0 < maxRecords ==> index < o + maxRecords
    requires recordSize > 0 ==> pos + recordSize <= |data| && chunk == data[pos..pos + recordSize]
    requires recordSize == 0 ==> chunk == []
    ensures index - o < |units| && units[index - o] == BytesUnit(chunk)
    ensures pos + recordSize == StreamRecord(o, index + 1) * recordSize && pos + recordSize <= |data|
  {
    assert StreamRecord(o, index + 1) == StreamRecord(o, index) + 1;
    assert (StreamRecord(o, index) + 1) * recordSize == pos + recordSize;
    if recordSize == 0 {
      assert pos == StreamRecord(o, index) * 0 == 0;
    }
    FixedLoopInside(|data|, recordSize, o, maxRecords, index);
    assert chunk == ChunkAt(data, recordSize, StreamRecord(o, index));
  }

  /** Records matching every unit are what Collect reads. */
  lemma AllMatch(results: seq<Result<RecordView>>, records: seq<Record>)
    requires Matches(results, 0, records) && |records| == |results|
    ensures Collect(results) == Ok(Views(records))
  {
    CollectOk(results, Views(records));
  }

  /** A result that fails, after records matching the results before it, fails the whole sequence with its error. */
  lemma PrefixFailure(results: seq<Result<RecordView>>, records: seq<Record>, e: Error)
    requires Matches(results, 0, records) && |records| < |results| && results[|records|] == Err(e)
    ensures Collect(results) == Err(e)
  {
    assert forall k :: 0 <= k < |records| ==> results[k] == Ok(records[k].View()) && results[k].Ok?;
    CollectFirstError(results, |records|);
  }


  /**
   * load(path, format, offset, maxRecords) of FixedBytesReader over the bytes of a file:
   * the set holds FixedWindow's records, each a new object over its own chunk, with the path,
   * the format, the adjusted offset and whether a short read ended it.
   */
  method LoadFixed(env: Env, format: RecordFormat, path: string, data: seq<int8>, offset: int, maxRecords: int) returns (r: Result<RecordSet>)
    ensures var w := FixedWindow(env, format, data, offset, maxRecords);
            (w.Err? ==> r == Err(w.error)) &&
            (w.Ok? ==> r.Ok? && fresh(r.value) && Views(r.value.records) == w.value.1 &&
                       r.value.eof == w.value.0.eof && r.value.offset == w.value.0.offset &&
                       r.value.path == Some(path) && r.value.format == Some(format))
    ensures r.Ok? ==> Distinct(r.value.records) && forall k :: 0 <= k < |r.value.records| ==> fresh(r.value.records[k]) && r.value.records[k].Valid()
  {
    var recordSize :- RecordSize(format);
    if recordSize < 0 {
      return Err(NegativeArraySize);
    }
    var buffer := new int8[recordSize];
    var size := |data|;
    var o := offset;
    if offset == -1 || size < offset * recordSize {
      if recordSize == 0 {
        return Err(Arithmetic);
      }
      o := Max(size / recordSize - maxRecords, 0);
    }
    if recordSize == 0 && maxRecords <= 0 {
      // every read into the empty buffer returns 0, the record size, so the same empty record
      // is read again and again unless reading it throws
      var empty :- ReadPayloadRecord(env, format, []);
      return Err(NonTermination);
    }
    FixedLoadCases(env, format, data, offset, maxRecords, recordSize, o);
    var records :- ReadFixedRun(env, format, data, buffer, o, maxRecords);
    Finish(records, path, format, o);
    return Ok(records);
  }

  /** FixedWindow once the record size and the adjusted offset o are known and neither fails. */
  lemma FixedLoadCases(env: Env, format: RecordFormat, data: seq<int8>, offset: int, maxRecords: int, recordSize: int, o: int)
    requires RecordSize(format) == Ok(recordSize) && 0 <= recordSize
    requires !((offset == -1 || |data| < offset * recordSize) && recordSize == 0)
    requires o == AdjustedOffset(|data|, recordSize, offset, maxRecords)
    requires !(recordSize == 0 && maxRecords <= 0)
    ensures var page := FixedRun(|data|, recordSize, o, maxRecords);
            var w := Collect(Results(env, format, FixedUnits(data, recordSize, SkipTo(o), page.count)));
            FixedWindow(env, format, data, offset, maxRecords) == if w.Err? then Err(w.error) else Ok((page, w.value))
  {
  }
}
