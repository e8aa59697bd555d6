/**
 * Records and their item cells. A record owns three maps: items (ordered, shown in the detail
 * view), meta items (ordered) and inner items (hidden). An item cell (RecordItemImpl) ties a
 * field definition to an offset in its record and caches the value it displays.
 */
module Records {
  import opened Wrappers
  import opened JavaLang
  import opened OrderedMaps
  import opened ItemDefinitions
  import opened RecordViews
  import opened ItemBehaviour

  /** An entry of the items map: a plain value (CSV columns), or an item cell. */
  datatype Entry = Plain(value: Value) | Item(cell: RecordItemImpl)

  /** The entry seen by value: a cell is known by its definition and offset. */
  function Project(e: Entry): ItemView {
    match e
    case Plain(v) => PlainItem(v)
    case Item(c) => CellItem(c.definition, c.offset)
  }

  /** The text a stored value shows (its toString): null throws, an expression is evaluated. */
  function ValueString(env: Env, v: RecordView, value: Value): (r: Result<string>)
    ensures value.NullValue? <==> r == Err(NullPointer)
    ensures value.Text? ==> r == Ok(value.text)
    ensures value.Number? ==> r == Ok(IntToString(value.n))
  {
    match value
    case NullValue => Err(NullPointer)
    case Text(s) => Ok(s)
    case Number(n) => Ok(IntToString(n))
    case Expression(e, _) =>
      match env.eval(e, v, [])
      case Evaluated(s) => Ok(s)
      case Failure(d) => Err(Evaluation(d))
  }

  /** Where getValue finds a name. */
  datatype Source = InItems(item: ItemView) | InMeta(value: Value) | InInner(value: Value) | Absent

  /**
   * The entry getValue reads: the items entry if there is one, else the meta entry, else the
   * inner entry. An error record has no items, so its lookup starts at the meta map.
   */
  function Lookup(v: RecordView, name: string): (s: Source)
    ensures !v.isError && HasKey(v.items, name) ==> s == InItems(Get(v.items, name).value)
    ensures (v.isError || !HasKey(v.items, name)) && HasKey(v.meta, name) ==> s == InMeta(Get(v.meta, name).value)
    ensures (v.isError || !HasKey(v.items, name)) && !HasKey(v.meta, name) && name in v.inner ==> s == InInner(v.inner[name])
    ensures s.Absent? <==> (v.isError || !HasKey(v.items, name)) && !HasKey(v.meta, name) && name !in v.inner
  {
    if !v.isError && Get(v.items, name).Some? then InItems(Get(v.items, name).value)
    else if Get(v.meta, name).Some? then InMeta(Get(v.meta, name).value)
    else if name in v.inner then InInner(v.inner[name])
    else Absent
  }

  /**
   * getLength(record, offset) of a string or hex definition: the length it reads at offset,
   * with a failure to compute it recorded in the record's meta map.
   */
  method DefinitionLength(env: Env, def: Node, rec: Record, offset: int) returns (n: int)
    requires def.IsField()
    modifies rec
    ensures var t := FieldLength(env, def, old(rec.View()), offset);
            n == t.value && rec.View() == ApplyDiagnostics(old(rec.View()), t.diagnostics)
    ensures rec.items == old(rec.items) && rec.inner == old(rec.inner)
  {
    var t := FieldLength(env, def, rec.View(), offset);
    rec.meta := PutDiagnostics(rec.meta, t.diagnostics);
    n := t.value;
  }

  class RecordItemImpl {
    const record: Record
    const definition: Node
    const offset: int
    var valueCache: Option<string>

    constructor (record: Record, definition: Node, offset: int)
      requires definition.IsField()
      ensures this.record == record && this.definition == definition && this.offset == offset
      ensures valueCache == None
    {
      this.record := record;
      this.definition := definition;
      this.offset := offset;
      valueCache := None;
    }

    /** getLength: asks the definition on every call; nothing is cached. */
    method GetLength(env: Env) returns (n: int)
      requires definition.IsField()
      modifies record
      ensures var t := FieldLength(env, definition, old(record.View()), offset);
              n == t.value && record.View() == ApplyDiagnostics(old(record.View()), t.diagnostics)
      ensures record.items == old(record.items) && record.inner == old(record.inner)
    {
      n := DefinitionLength(env, definition, record, offset);
    }

    /**
     * toString: the first call computes the item's value and caches it; later calls return
     * the cached text and touch nothing. A call that throws caches nothing.
     */
    method ToString(env: Env) returns (r: Result<string>)
      requires definition.IsField()
      modifies this, record
      ensures old(valueCache).Some? ==>
                r == Ok(old(valueCache).value) && valueCache == old(valueCache) &&
                record.View() == old(record.View())
      ensures old(valueCache).None? ==>
                var t := FieldValue(env, definition, old(record.View()), offset);
                r == t.value && record.View() == ApplyDiagnostics(old(record.View()), t.diagnostics) &&
                valueCache == (if r.Ok? then Some(r.value) else None)
      ensures record.items == old(record.items) && record.inner == old(record.inner)
    {
      if valueCache.Some? {
        return Ok(valueCache.value);
      }
      var t := FieldValue(env, definition, record.View(), offset);
      record.meta := PutDiagnostics(record.meta, t.diagnostics);
      if t.value.Ok? {
        valueCache := Some(t.value.value);
      }
      r := t.value;
    }

    /** toHexString: the hexadecimal form of the item, recomputed on every call. */
    method ToHexString(env: Env) returns (r: Result<string>)
      requires definition.IsField()
      modifies record
      ensures var t := FieldHex(env, definition, old(record.View()), offset);
              r == t.value && record.View() == ApplyDiagnostics(old(record.View()), t.diagnostics)
      ensures record.items == old(record.items) && record.inner == old(record.inner)
    {
      var t := FieldHex(env, definition, record.View(), offset);
      record.meta := PutDiagnostics(record.meta, t.diagnostics);
      r := t.value;
    }

    /** toRawString: the decoded text of a string item before any value expression. */
    method ToRawString(env: Env) returns (r: string)
      requires definition.StringItem?
      modifies record
      ensures var t := RawStringValue(env, definition, old(record.View()), offset);
              r == t.value && record.View() == ApplyDiagnostics(old(record.View()), t.diagnostics)
      ensures record.items == old(record.items) && record.inner == old(record.inner)
    {
      var t := RawStringValue(env, definition, record.View(), offset);
      record.meta := PutDiagnostics(record.meta, t.diagnostics);
      r := t.value;
    }
  }

  class Record {
    const isError: bool
    const raw: RawData
    const length: int
    var items: OMap<Entry>
    var meta: OMap<Value>
    var inner: map<string, Value>

    /** A record of the readers (an AbstractRecord subclass): raw data, a fixed length, empty maps. */
    constructor (raw: RawData, length: int)
      ensures !isError && this.raw == raw && this.length == length
      ensures items == [] && meta == [] && inner == map[]
      ensures Valid()
    {
      isError := false;
      this.raw := raw;
      this.length := length;
      items := [];
      meta := [];
      inner := map[];
    }

    /** ErrorRecord: no raw data, length 0, no items, and the message under "[エラー]". */
    constructor Error(message: string)
      ensures isError && raw == NoData && length == 0
      ensures items == [] && meta == [("[エラー]", Text(message))] && inner == map[]
      ensures Valid()
    {
      isError := true;
      raw := NoData;
      length := 0;
      items := [];
      meta := [("[エラー]", Text(message))];
      inner := map[];
    }

    function View(): RecordView
      reads this
    {
      RecordView(isError, raw, length, MapValues(items, Project), meta, inner)
    }

    function Cells(): set<RecordItemImpl>
      reads this
    {
      set i | 0 <= i < |items| && items[i].1.Item? :: items[i].1.cell
    }

    /** An error record's items stay empty; every cell belongs to this record and holds a field. */
    ghost predicate Valid()
      reads this
    {
      (isError ==> items == []) &&
      DistinctKeys(items) && DistinctKeys(meta) &&
      forall i :: 0 <= i < |items| && items[i].1.Item? ==>
        items[i].1.cell.record == this && items[i].1.cell.definition.IsField()
    }

    /** getMetaItems().put: the meta map of every record, error records included, accepts puts. */
    method PutMeta(key: string, value: Value)
      requires Valid()
      modifies this
      ensures Valid()
      ensures meta == Put(old(meta), key, value) && items == old(items) && inner == old(inner)
      ensures View() == old(View()).(meta := Put(old(View()).meta, key, value))
    {
      meta := Put(meta, key, value);
    }

    /** getMetaItems().entrySet().removeIf(p): the entries whose value satisfies p dropped, order kept. */
    method RemoveMetaIf(p: Value -> bool)
      requires Valid()
      modifies this
      ensures Valid()
      ensures meta == RemoveIf(old(meta), p) && items == old(items) && inner == old(inner)
    {
      meta := RemoveIf(meta, p);
    }

    /** getInnerItems().put: the unordered inner map. */
    method PutInner(key: string, value: Value)
      requires Valid()
      modifies this
      ensures Valid()
      ensures inner == old(inner)[key := value] && items == old(items) && meta == old(meta)
      ensures View() == old(View()).(inner := old(View()).inner[key := value])
    {
      inner := inner[key := value];
    }

    /** items.put: an error record's items map is immutable, so the put throws. */
    method PutItem(key: string, e: Entry) returns (r: Outcome)
      requires Valid()
      requires e.Item? ==> e.cell.record == this && e.cell.definition.IsField()
      modifies this
      ensures Valid()
      ensures isError ==> r == Fail(UnsupportedOperation) && items == old(items)
      ensures !isError ==> r == Pass && items == Put(old(items), key, e)
      ensures View() == (if isError then old(View()) else old(View()).(items := Put(old(View()).items, key, Project(e))))
      ensures meta == old(meta) && inner == old(inner)
    {
      MapValuesPut(items, key, e, Project);
      if isError {
        return Fail(UnsupportedOperation);
      }
      PutKeepsCells(items, key, e);
      items := Put(items, key, e);
      r := Pass;
    }

    lemma PutKeepsCells(m: OMap<Entry>, key: string, e: Entry)
      requires forall i :: 0 <= i < |m| && m[i].1.Item? ==> m[i].1.cell.record == this && m[i].1.cell.definition.IsField()
      requires e.Item? ==> e.cell.record == this && e.cell.definition.IsField()
      ensures var r := Put(m, key, e);
              forall i :: 0 <= i < |r| && r[i].1.Item? ==> r[i].1.cell.record == this && r[i].1.cell.definition.IsField()
    {
    }

    /**
     * getValue(name): the text of the entry Lookup finds, or "" when there is none. An item
     * cell shows its cached value (computing it on first use); a null entry throws.
     */
    method GetValue(env: Env, name: string) returns (r: Result<string>)
      requires Valid()
      modifies this, Cells()
      ensures Valid() && items == old(items) && inner == old(inner)
      ensures var s := Lookup(old(View()), name);
              !(s.InItems? && s.item.CellItem?) ==>
                View() == old(View()) &&
                r == match s
                     case Absent => Ok("")
                     case InMeta(value) => ValueString(env, old(View()), value)
                     case InInner(value) => ValueString(env, old(View()), value)
                     case InItems(item) => ValueString(env, old(View()), item.value)
      ensures var s := Lookup(old(View()), name);
              s.InItems? && s.item.CellItem? ==>
                var c := Get(old(items), name).value.cell;
                (old(c.valueCache).Some? ==> r == Ok(old(c.valueCache).value) && View() == old(View())) &&
                (old(c.valueCache).None? ==>
                   var t := FieldValue(env, c.definition, old(View()), c.offset);
                   r == t.value && View() == ApplyDiagnostics(old(View()), t.diagnostics))
    {
      var v := View();
      ProjectGet(items, name);
      if !isError && Get(items, name).Some? {
        match Get(items, name).value {
          case Plain(value) =>
            r := ValueString(env, v, value);
          case Item(c) =>
            CellOfGet(name);
            r := c.ToString(env);
        }
        return;
      }
      var m := Get(meta, name);
      if m.Some? {
        return ValueString(env, v, m.value);
      }
      if name in inner {
        return ValueString(env, v, inner[name]);
      }
      return Ok("");
    }

    lemma ProjectGet(m: OMap<Entry>, name: string)
      ensures Get(MapValues(m, Project), name) == (if Get(m, name).Some? then Some(Project(Get(m, name).value)) else None)
    {
      IndexOfMapValues(m, name, Project);
    }

    lemma CellOfGet(name: string)
      requires Valid() && Get(items, name).Some? && Get(items, name).value.Item?
      ensures Get(items, name).value.cell in Cells()
      ensures Get(items, name).value.cell.record == this && Get(items, name).value.cell.definition.IsField()
    {
      var i := IndexOf(items, name);
      assert items[i].1 == Get(items, name).value;
    }

    /** getHexValue(name): the hex of an item cell stored under name; "" for anything else and for error records. */
    method GetHexValue(env: Env, name: string) returns (r: Result<string>)
      requires Valid()
      modifies this
      ensures Valid() && items == old(items) && inner == old(inner)
      ensures var s := Lookup(old(View()), name);
              !(s.InItems? && s.item.CellItem?) ==> r == Ok("") && View() == old(View())
      ensures var s := Lookup(old(View()), name);
              s.InItems? && s.item.CellItem? ==>
                var t := FieldHex(env, s.item.definition, old(View()), s.item.offset);
                r == t.value && View() == ApplyDiagnostics(old(View()), t.diagnostics)
    {
      if isError {
        return Ok("");
      }
      ProjectGet(items, name);
      var e := Get(items, name);
      if e.Some? && e.value.Item? {
        CellOfGet(name);
        r := e.value.cell.ToHexString(env);
        return;
      }
      return Ok("");
    }
  }
}
