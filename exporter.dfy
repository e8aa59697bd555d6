/**
 * The exports of the viewer: the list export (a header and one quoted row per record), the
 * detail export (a block of rows per record) and the detail files (one file per record),
 * with their quoting, file-name cleaning, filtering and numbering. Records arrive as the
 * streaming load hands them to the export, one result per record, by value: the record's
 * view; the model starts the export with no cached text, and the texts its item cells
 * cache are built up while the record is written.
 */
module Exporter {
  import opened Wrappers
  import opened JavaLang
  import opened OrderedMaps
  import opened Splitting
  import opened ItemDefinitions
  import opened RecordViews
  import opened ItemBehaviour
  import opened Records

  // ---------------------------------------------------------------- quote

  /** The text between the quotes of quote(text): every NUL dropped, every double quote doubled. */
  function Escape(text: string): (r: string)
    ensures forall i :: 0 <= i < |r| ==> r[i] != '\0'
  {
    if |text| == 0 then ""
    else (if text[0] == '\0' then "" else if text[0] == '"' then "\"\"" else [text[0]]) + Escape(text[1..])
  }

  /** quote(text): the escaped text between two double quotes, as one CSV field. */
  function Quote(text: string): (r: string)
    ensures |r| >= 2 && r[0] == '"' && r[|r| - 1] == '"'
  {
    "\"" + Escape(text) + "\""
  }

  /** The text without its NUL characters. */
  function RemoveNul(text: string): (r: string)
    ensures forall i :: 0 <= i < |r| ==> r[i] != '\0'
  {
    if |text| == 0 then "" else (if text[0] == '\0' then "" else [text[0]]) + RemoveNul(text[1..])
  }

  /** Reads an escaped text back: a doubled quote stands for one quote, a lone quote is malformed. */
  function Unescape(s: string): Option<string> {
    if |s| == 0 then Some("")
    else if s[0] != '"' then
      (match Unescape(s[1..]) case None => None case Some(t) => Some([s[0]] + t))
    else if |s| >= 2 && s[1] == '"' then
      (match Unescape(s[2..]) case None => None case Some(t) => Some("\"" + t))
    else None
  }

  /** The text a quoted CSV field stands for; None unless q is one quoted, well-escaped field. */
  function Unquote(q: string): Option<string> {
    if |q| >= 2 && q[0] == '"' && q[|q| - 1] == '"' then Unescape(q[1..|q| - 1]) else None
  }

  lemma {:induction false} UnescapeEscape(text: string)
    ensures Unescape(Escape(text)) == Some(RemoveNul(text))
  {
    if |text| > 0 {
      var rest := Escape(text[1..]);
      UnescapeEscape(text[1..]);
      if text[0] == '"' {
        assert Escape(text) == "\"\"" + rest;
        assert Escape(text)[2..] == rest;
      } else if text[0] == '\0' {
        assert Escape(text) == rest;
        assert RemoveNul(text) == RemoveNul(text[1..]);
      } else {
        var e := Escape(text);
        assert e == [text[0]] + rest;
        assert e[0] == text[0] && e[1..] == rest;
        assert RemoveNul(text) == [text[0]] + RemoveNul(text[1..]);
      }
    }
  }

  lemma {:induction false} RemoveNulOfNulFree(text: string)
    requires forall i :: 0 <= i < |text| ==> text[i] != '\0'
    ensures RemoveNul(text) == text
  {
    if |text| > 0 {
      RemoveNulOfNulFree(text[1..]);
      assert [text[0]] + text[1..] == text;
    }
  }

  /** A quoted value reads back as its text without NULs, so a text without NULs comes back unchanged. */
  lemma QuoteRoundTrip(text: string)
    ensures Unquote(Quote(text)) == Some(RemoveNul(text))
    ensures (forall i :: 0 <= i < |text| ==> text[i] != '\0') ==> Unquote(Quote(text)) == Some(text)
  {
    var q := Quote(text);
    assert q[1..|q| - 1] == Escape(text);
    UnescapeEscape(text);
    if forall i :: 0 <= i < |text| ==> text[i] != '\0' {
      RemoveNulOfNulFree(text);
    }
  }

  // ---------------------------------------------------------------- file names

  /** The characters removeInvalidFileNameChars deletes: U+0001 to U+001F, <>:"/\|?* and U+007F. */
  predicate InvalidFileNameChar(c: char) {
    '\U{1}' <= c <= '\U{1F}' || c == '<' || c == '>' || c == ':' || c == '"' || c == '/' ||
    c == '\\' || c == '|' || c == '?' || c == '*' || c == '\U{7F}'
  }

  /** removeInvalidFileNameChars: every run of invalid characters deleted, everything else kept in order. */
  function RemoveInvalidFileNameChars(name: string): (r: string)
    ensures |r| <= |name|
    ensures forall i :: 0 <= i < |r| ==> !InvalidFileNameChar(r[i])
  {
    if |name| == 0 then ""
    else (if InvalidFileNameChar(name[0]) then "" else [name[0]]) + RemoveInvalidFileNameChars(name[1..])
  }

  /** The cleaning works character by character: cleaning a concatenation cleans each part. */
  lemma {:induction false} RemoveInvalidAppend(a: string, b: string)
    ensures RemoveInvalidFileNameChars(a + b) == RemoveInvalidFileNameChars(a) + RemoveInvalidFileNameChars(b)
  {
    if |a| > 0 {
      assert (a + b)[1..] == a[1..] + b;
      RemoveInvalidAppend(a[1..], b);
    } else {
      assert a + b == b;
    }
  }

  /** A name without invalid characters (U+0000 included) is kept as it is. */
  lemma {:induction false} RemoveInvalidKeepsValid(name: string)
    requires forall i :: 0 <= i < |name| ==> !InvalidFileNameChar(name[i])
    ensures RemoveInvalidFileNameChars(name) == name
  {
    if |name| > 0 {
      RemoveInvalidKeepsValid(name[1..]);
      assert [name[0]] + name[1..] == name;
    }
  }

  /** Cleaning a cleaned name changes nothing. */
  lemma RemoveInvalidIdempotent(name: string)
    ensures RemoveInvalidFileNameChars(RemoveInvalidFileNameChars(name)) == RemoveInvalidFileNameChars(name)
  {
    RemoveInvalidKeepsValid(RemoveInvalidFileNameChars(name));
  }

  /**
   * The file Files.write(outputDirPath.resolve(name), ...) writes, on a POSIX file system: a
   * name holding U+0000 is refused by the path (InvalidPathException); the empty name, "." and
   * ".." resolve to a directory, which cannot be written as a file (UncheckedIOException).
   */
  function OutputFile(name: string): (r: Result<string>)
    ensures r.Ok? <==> '\0' !in name && name != "" && name != "." && name != ".."
    ensures r.Ok? ==> r.value == name
  {
    if '\0' in name then Err(IllegalArgument("Nul character not allowed"))
    else if name == "" || name == "." || name == ".." then Err(UncheckedIO)
    else Ok(name)
  }

  // ---------------------------------------------------------------- records as the exports see them

  /** A record as the exports see it: its view and, by item name, the text each item cell has cached. */
  datatype Shown = Shown(view: RecordView, cache: map<string, string>)

  /** Every item cell of an items map is a string or hex field (the only cells the parser creates). */
  predicate FieldCells(items: OMap<ItemView>) {
    forall i :: 0 <= i < |items| && items[i].1.CellItem? ==> items[i].1.definition.IsField()
  }

  predicate CellsAreFields(v: RecordView) {
    FieldCells(v.items)
  }

  /**
   * t is s after showing some of its values: only meta entries (diagnostics) and cached texts
   * were added, and a text once cached never changes.
   */
  predicate Follows(s: Shown, t: Shown) {
    t.view == s.view.(meta := t.view.meta) &&
    forall k :: k in s.cache ==> k in t.cache && t.cache[k] == s.cache[k]
  }

  /** toString of the item cell stored under key: the cached text, or the value computed and then cached. */
  function ShowCell(env: Env, s: Shown, key: string, def: Node, offset: int): (r: (Result<string>, Shown))
    requires def.IsField()
    ensures Follows(s, r.1)
    ensures key in s.cache ==> r == (Ok(s.cache[key]), s)
    ensures r.0.Ok? ==> key in r.1.cache && r.1.cache[key] == r.0.value
  {
    if key in s.cache then (Ok(s.cache[key]), s)
    else
      var t := FieldValue(env, def, s.view, offset);
      (t.value, Shown(ApplyDiagnostics(s.view, t.diagnostics), if t.value.Ok? then s.cache[key := t.value.value] else s.cache))
  }

  /**
   * getValue(name) of the shown record: the text of the entry Lookup finds, "" when there is
   * none. Only an item cell's first showing changes the record.
   */
  function ShowValue(env: Env, s: Shown, name: string): (r: (Result<string>, Shown))
    requires CellsAreFields(s.view)
    ensures Follows(s, r.1)
    ensures !(Lookup(s.view, name).InItems? && Lookup(s.view, name).item.CellItem?) ==> r.1 == s
    ensures Lookup(s.view, name).Absent? ==> r.0 == Ok("")
  {
    match Lookup(s.view, name)
    case Absent => (Ok(""), s)
    case InMeta(value) => (ValueString(env, s.view, value), s)
    case InInner(value) => (ValueString(env, s.view, value), s)
    case InItems(item) =>
      match item
      case PlainItem(value) => (ValueString(env, s.view, value), s)
      case CellItem(def, offset) => ShowCell(env, s, name, def, offset)
  }

  /** The values of the columns, shown one after the other; the first failure ends the row. */
  function ShowAll(env: Env, s: Shown, columns: seq<string>): (r: (Result<seq<string>>, Shown))
    requires CellsAreFields(s.view)
    ensures Follows(s, r.1)
    ensures r.0.Ok? ==> |r.0.value| == |columns|
    decreases |columns|
  {
    if |columns| == 0 then (Ok([]), s)
    else
      var first := ShowValue(env, s, columns[0]);
      if first.0.Err? then (Err(first.0.error), first.1)
      else
        var rest := ShowAll(env, first.1, columns[1..]);
        (if rest.0.Err? then Err(rest.0.error) else Ok([first.0.value] + rest.0.value), rest.1)
  }

  // ---------------------------------------------------------------- testFilter

  const NO_KEY := "[No.]"

  /** Whether the shown record has an item cell under "[No.]", the one column testFilter skips. */
  predicate NumberCell(v: RecordView) {
    Lookup(v, NO_KEY).InItems? && Lookup(v, NO_KEY).item.CellItem?
  }

  /** The plain filter: some column other than "[No.]", shown in turn, contains the filter text. */
  function AnyColumnContains(env: Env, s: Shown, columns: seq<string>, filter: string): (r: (Result<bool>, Shown))
    requires CellsAreFields(s.view)
    ensures Follows(s, r.1)
    decreases |columns|
  {
    if |columns| == 0 then (Ok(false), s)
    else if columns[0] == NO_KEY then AnyColumnContains(env, s, columns[1..], filter)
    else
      var first := ShowValue(env, s, columns[0]);
      if first.0.Err? then (Err(first.0.error), first.1)
      else if Contains(first.0.value, filter) then (Ok(true), first.1)
      else AnyColumnContains(env, first.1, columns[1..], filter)
  }

  /** testFilter: the extended filter is evalAsBoolean of the filter expression; otherwise the plain filter. */
  function TestFilter(env: Env, s: Shown, columns: seq<string>, filter: string, extended: bool): (r: (Result<bool>, Shown))
    requires CellsAreFields(s.view)
    ensures extended ==> r == (Ok(EvalAsBoolean(env, s.view, Some(filter), [])), s)
    ensures Follows(s, r.1)
  {
    if extended then (Ok(EvalAsBoolean(env, s.view, Some(filter), [])), s)
    else AnyColumnContains(env, s, columns, filter)
  }

  lemma FollowsTransitive(s: Shown, t: Shown, u: Shown)
    requires Follows(s, t) && Follows(t, u)
    ensures Follows(s, u)
  {
  }

  lemma FollowsKeepsLookup(s: Shown, t: Shown, name: string)
    requires Follows(s, t)
    ensures Lookup(t.view, name).InItems? == Lookup(s.view, name).InItems?
    ensures Lookup(t.view, name).InItems? ==> Lookup(t.view, name) == Lookup(s.view, name)
  {
  }

  /**
   * The plain filter agrees with the row the list export shows: when every column can be
   * shown, the record passes exactly when a column other than "[No.]" contains the filter.
   */
  lemma {:induction false} FilterMatchesRow(env: Env, s: Shown, columns: seq<string>, filter: string)
    requires CellsAreFields(s.view) && !NumberCell(s.view)
    requires ShowAll(env, s, columns).0.Ok?
    ensures var values := ShowAll(env, s, columns).0.value;
            AnyColumnContains(env, s, columns, filter).0 ==
              Ok(exists j :: 0 <= j < |columns| && columns[j] != NO_KEY && Contains(values[j], filter))
    decreases |columns|
  {
    if |columns| > 0 {
      var values := ShowAll(env, s, columns).0.value;
      var first := ShowValue(env, s, columns[0]);
      var rest := ShowAll(env, first.1, columns[1..]);
      assert values == [first.0.value] + rest.0.value;
      FollowsKeepsLookup(s, first.1, NO_KEY);
      if columns[0] == NO_KEY {
        assert first.1 == s;
        FilterMatchesRow(env, s, columns[1..], filter);
        ShiftExists(columns, values, filter);
      } else if !Contains(first.0.value, filter) {
        FilterMatchesRow(env, first.1, columns[1..], filter);
        ShiftExists(columns, values, filter);
      }
    }
  }

  lemma ShiftExists(columns: seq<string>, values: seq<string>, filter: string)
    requires |columns| == |values| > 0
    requires columns[0] == NO_KEY || !Contains(values[0], filter)
    ensures (exists j :: 0 <= j < |columns| && columns[j] != NO_KEY && Contains(values[j], filter)) ==
            (exists j :: 0 <= j < |columns| - 1 && columns[1..][j] != NO_KEY && Contains(values[1..][j], filter))
  {
    if exists j :: 0 <= j < |columns| && columns[j] != NO_KEY && Contains(values[j], filter) {
      var j :| 0 <= j < |columns| && columns[j] != NO_KEY && Contains(values[j], filter);
      assert columns[1..][j - 1] == columns[j] && values[1..][j - 1] == values[j];
    }
  }

  // ---------------------------------------------------------------- formatDetail

  /** One row of a detail block; it is written as its seven fields joined by the delimiter. */
  datatype DetailRow = DetailRow(kind: string, no: int, key: string, offset: string, length: string, value: string, hex: string)

  function RowText(row: DetailRow, delimiter: string): (r: string)
    ensures |row.kind| <= |r| && r[..|row.kind|] == row.kind
    ensures |row.hex| <= |r| && r[|r| - |row.hex|..] == row.hex
  {
    var fields := [row.kind, IntToString(row.no), Quote(row.key), row.offset, row.length, Quote(row.value), row.hex];
    JoinEnds(fields, delimiter);
    Join(fields, delimiter)
  }

  function RowTexts(rows: seq<DetailRow>, delimiter: string): (r: seq<string>)
    ensures |r| == |rows| && forall i :: 0 <= i < |rows| ==> r[i] == RowText(rows[i], delimiter)
  {
    seq(|rows|, i requires 0 <= i < |rows| => RowText(rows[i], delimiter))
  }

  const META_KIND := "メタ情報"
  const DATA_KIND := "データ"

  /** The fixed column header of a detail block, always joined by commas. */
  const DETAIL_COLUMNS := Join(["分類", "No.", "項目名", "位置", "長さ", "値", "値(HEX)"], ",")

  /** Row i of the meta part: entry i numbered i + 1, with its shown value and no offset, length or hex. */
  predicate MetaRowOf(env: Env, v: RecordView, i: int, row: DetailRow)
    requires 0 <= i < |v.meta|
  {
    var text := ValueString(env, v, v.meta[i].1);
    text.Ok? && row == DetailRow(META_KIND, i + 1, v.meta[i].0, "", "", text.value, "")
  }

  /** The rows of the meta entries from the k-th on, numbered from k + 1; a value that cannot be shown ends them. */
  function MetaRows(env: Env, v: RecordView, k: nat): (r: Result<seq<DetailRow>>)
    requires k <= |v.meta|
    ensures r.Ok? ==>
              |r.value| == |v.meta| - k &&
              forall i :: 0 <= i < |r.value| ==> MetaRowOf(env, v, k + i, r.value[i])
    ensures r.Err? ==> exists i :: k <= i < |v.meta| && ValueString(env, v, v.meta[i].1) == Err(r.error)
    decreases |v.meta| - k
  {
    if k == |v.meta| then Ok([])
    else
      var text := ValueString(env, v, v.meta[k].1);
      if text.Err? then Err(text.error)
      else
        var rest := MetaRows(env, v, k + 1);
        if rest.Err? then rest
        else Ok([DetailRow(META_KIND, k + 1, v.meta[k].0, "", "", text.value, "")] + rest.value)
  }

  /**
   * What the row of an item entry numbered no looks like whatever was shown before it: only item
   * cells fill offset, length and hex, and a cell of a declared length shows that length.
   */
  predicate ItemRowShape(row: DetailRow, no: int, entry: (string, ItemView)) {
    row.kind == DATA_KIND && row.no == no && row.key == entry.0 &&
    if entry.1.PlainItem? then row.offset == "" && row.length == "" && row.hex == ""
    else
      row.offset == IntToString(entry.1.offset) &&
      (entry.1.definition.IsField() && entry.1.definition.length.Fixed? && entry.1.definition.length.n != -1 ==>
         row.length == IntToString(entry.1.definition.length.n))
  }

  /**
   * The row of an item entry numbered no when it is shown from state t: a plain value's text; an
   * item cell's offset, its length and hex as the field computes them on the view, and its text
   * as toString gives it once the diagnostics of those two are recorded.
   */
  predicate ItemRowAt(env: Env, t: Shown, row: DetailRow, no: int, entry: (string, ItemView)) {
    match entry.1
    case PlainItem(value) =>
      ValueString(env, t.view, value).Ok? &&
      row == DetailRow(DATA_KIND, no, entry.0, "", "", ValueString(env, t.view, value).value, "")
    case CellItem(def, offset) =>
      def.IsField() &&
      var length := FieldLength(env, def, t.view, offset);
      var v1 := ApplyDiagnostics(t.view, length.diagnostics);
      var hex := FieldHex(env, def, v1, offset);
      hex.value.Ok? &&
      ShowCell(env, Shown(ApplyDiagnostics(v1, hex.diagnostics), t.cache), entry.0, def, offset).0 == Ok(row.value) &&
      row == DetailRow(DATA_KIND, no, entry.0, IntToString(offset), IntToString(length.value), row.value, hex.value.value)
  }

  /** ItemRowAt as a function value, for the lemmas about whole sequences of rows. */
  function ItemRowFrom(env: Env): (Shown, DetailRow, int, (string, ItemView)) -> bool {
    (t, row, no, entry) => ItemRowAt(env, t, row, no, entry)
  }

  /** Every row from the k-th entry on is the row of its entry shown, as at says, from some state reached from s. */
  ghost predicate RowsShownFrom<R, E>(at: (Shown, R, int, E) -> bool, s: Shown, rows: seq<R>, entries: seq<E>, k: nat) {
    k + |rows| <= |entries| &&
    forall i :: 0 <= i < |rows| ==> exists t :: Follows(s, t) && at(t, rows[i], k + i + 1, entries[k + i])
  }

  /**
   * The row of one item entry: a plain value is shown as it is; an item cell gives its offset,
   * its length (getLength), its hex (toHexString) and then its text (toString), in that order.
   */
  function ItemRow(env: Env, s: Shown, key: string, item: ItemView, no: int): (r: (Result<DetailRow>, Shown))
    requires item.CellItem? ==> item.definition.IsField()
    ensures Follows(s, r.1)
    ensures r.0.Ok? ==> ItemRowShape(r.0.value, no, (key, item))
    ensures r.0.Ok? ==> ItemRowAt(env, s, r.0.value, no, (key, item))
    ensures item.CellItem? && key in s.cache && r.0.Ok? ==> r.0.value.value == s.cache[key]
  {
    match item
    case PlainItem(value) =>
      var text := ValueString(env, s.view, value);
      (if text.Err? then Err(text.error) else Ok(DetailRow(DATA_KIND, no, key, "", "", text.value, "")), s)
    case CellItem(def, offset) =>
      var length := FieldLength(env, def, s.view, offset);
      var v1 := ApplyDiagnostics(s.view, length.diagnostics);
      var hex := FieldHex(env, def, v1, offset);
      var s2 := Shown(ApplyDiagnostics(v1, hex.diagnostics), s.cache);
      if hex.value.Err? then (Err(hex.value.error), s2)
      else
        var text := ShowCell(env, s2, key, def, offset);
        if text.0.Err? then (Err(text.0.error), text.1)
        else (Ok(DetailRow(DATA_KIND, no, key, IntToString(offset), IntToString(length.value), text.0.value, hex.value.value)), text.1)
  }

  /** The rows of the item entries from the k-th on, numbered from k + 1, each shown in turn. */
  function ItemRows(env: Env, s: Shown, items: OMap<ItemView>, k: nat): (r: (Result<seq<DetailRow>>, Shown))
    requires FieldCells(items) && k <= |items|
    ensures Follows(s, r.1)
    ensures r.0.Ok? ==>
              |r.0.value| == |items| - k &&
              forall i :: 0 <= i < |r.0.value| ==> ItemRowShape(r.0.value[i], k + i + 1, items[k + i])
    ensures r.0.Ok? ==> RowsShownFrom(ItemRowFrom(env), s, r.0.value, items, k)
    decreases |items| - k
  {
    if k == |items| then (Ok([]), s)
    else
      var row := ItemRow(env, s, items[k].0, items[k].1, k + 1);
      if row.0.Err? then (Err(row.0.error), row.1)
      else
        var rest := ItemRows(env, row.1, items, k + 1);
        FollowsTransitive(s, row.1, rest.1);
        if rest.0.Err? then (Err(rest.0.error), rest.1)
        else
          ShapedPrepend(ItemRowShape, items, k, row.0.value, rest.0.value);
          RowsShownPrepend(ItemRowFrom(env), s, row.1, items, k, row.0.value, rest.0.value);
          (Ok([row.0.value] + rest.0.value), rest.1)
  }

  /** The row of entry k shown from s, then rows shown from a later state: all are shown from s on. */
  lemma RowsShownPrepend<R, E>(at: (Shown, R, int, E) -> bool, s: Shown, s1: Shown, entries: seq<E>, k: nat, row: R, rest: seq<R>)
    requires k < |entries| && Follows(s, s1)
    requires at(s, row, k + 1, entries[k])
    requires RowsShownFrom(at, s1, rest, entries, k + 1)
    ensures RowsShownFrom(at, s, [row] + rest, entries, k)
  {
    var rows := [row] + rest;
    forall i | 0 <= i < |rows|
      ensures exists t :: Follows(s, t) && at(t, rows[i], k + i + 1, entries[k + i])
    {
      if i == 0 {
        assert Follows(s, s) && at(s, rows[0], k + 1, entries[k]);
      } else {
        var j := i - 1;
        var t :| Follows(s1, t) && at(t, rest[j], k + 1 + j + 1, entries[k + 1 + j]);
        FollowsTransitive(s, s1, t);
        assert rows[i] == rest[j] && k + 1 + j == k + i;
      }
    }
  }

  /** Prepending the row of entry k to the rows of the entries after it gives the rows from k on. */
  lemma ShapedPrepend<R, E>(shape: (R, int, E) -> bool, entries: seq<E>, k: nat, row: R, rest: seq<R>)
    requires k < |entries| && |rest| == |entries| - (k + 1)
    requires shape(row, k + 1, entries[k])
    requires forall i :: 0 <= i < |rest| ==> shape(rest[i], k + 1 + i + 1, entries[k + 1 + i])
    ensures var rows := [row] + rest;
            |rows| == |entries| - k &&
            forall i :: 0 <= i < |rows| ==> shape(rows[i], k + i + 1, entries[k + i])
  {
    var rows := [row] + rest;
    forall i | 0 < i < |rows|
      ensures shape(rows[i], k + i + 1, entries[k + i])
    {
      var j := i - 1;
      assert shape(rest[j], k + 1 + j + 1, entries[k + 1 + j]);
      assert rows[i] == rest[j] && k + 1 + j == k + i;
    }
  }


  /** The items a detail block lists: an error record has none. */
  function DetailItems(v: RecordView): OMap<ItemView> {
    if v.isError then [] else v.items
  }

  /**
   * formatDetail: the evaluated header, the fixed column header, the meta rows numbered from 1
   * and the item rows numbered from 1 again.
   */
  function DetailLines(env: Env, s: Shown, headerExpression: string, delimiter: string): (r: (Result<seq<string>>, Shown))
    requires CellsAreFields(s.view)
    ensures Follows(s, r.1)
    ensures r.0.Ok? ==>
              env.eval(headerExpression, s.view, []).Evaluated? &&
              |r.0.value| == 2 + |s.view.meta| + |DetailItems(s.view)| &&
              r.0.value[0] == env.eval(headerExpression, s.view, []).text && r.0.value[1] == DETAIL_COLUMNS
  {
    match env.eval(headerExpression, s.view, [])
    case Failure(d) => (Err(Evaluation(d)), s)
    case Evaluated(header) =>
      var meta := MetaRows(env, s.view, 0);
      if meta.Err? then (Err(meta.error), s)
      else
        var items := ItemRows(env, s, DetailItems(s.view), 0);
        if items.0.Err? then (Err(items.0.error), items.1)
        else (Ok([header, DETAIL_COLUMNS] + RowTexts(meta.value, delimiter) + RowTexts(items.0.value, delimiter)), items.1)
  }

  /**
   * formatDetail as the source builds it: a StringBuilder holding the header and the column
   * header, then a loop over the meta entries and a loop over the items, each with its own
   * counter restarted at 0.
   */
  method FormatDetail(env: Env, s: Shown, headerExpression: string, delimiter: string) returns (r: Result<seq<string>>, after: Shown)
    requires CellsAreFields(s.view)
    ensures (r, after) == DetailLines(env, s, headerExpression, delimiter)
  {
    var header := env.eval(headerExpression, s.view, []);
    if header.Failure? {
      assert DetailLines(env, s, headerExpression, delimiter) == (Err(Evaluation(header.description)), s);
      return Err(Evaluation(header.description)), s;
    }
    var head := [header.text, DETAIL_COLUMNS];
    var withMeta := AppendMetaRows(env, s.view, delimiter, head);
    if withMeta.Err? {
      assert DetailLines(env, s, headerExpression, delimiter) == (Err(withMeta.error), s);
      return Err(withMeta.error), s;
    }
    r, after := AppendItemRows(env, s, DetailItems(s.view), delimiter, withMeta.value);
  }

  /** The meta loop of formatDetail: one row per meta entry appended to lines, its counter starting at 0. */
  method AppendMetaRows(env: Env, v: RecordView, delimiter: string, lines: seq<string>) returns (r: Result<seq<string>>)
    ensures var rows := MetaRows(env, v, 0);
            r == if rows.Err? then Err(rows.error) else Ok(lines + RowTexts(rows.value, delimiter))
  {
    var out := lines;
    ghost var rows: seq<DetailRow> := [];
    var no := 0;
    assert MetaRows(env, v, 0).Ok? ==> rows + MetaRows(env, v, 0).value == MetaRows(env, v, 0).value;
    while no < |v.meta|
      invariant 0 <= no <= |v.meta| && |rows| == no
      invariant out == lines + RowTexts(rows, delimiter)
      invariant MetaRows(env, v, 0) == (var rest := MetaRows(env, v, no); if rest.Err? then rest else Ok(rows + rest.value))
    {
      var text := ValueString(env, v, v.meta[no].1);
      if text.Err? {
        return Err(text.error);
      }
      var row := DetailRow(META_KIND, no + 1, v.meta[no].0, "", "", text.value, "");
      if MetaRows(env, v, no + 1).Ok? {
        assert rows + [row] + MetaRows(env, v, no + 1).value == rows + ([row] + MetaRows(env, v, no + 1).value);
      }
      out := out + [RowText(row, delimiter)];
      rows := rows + [row];
      no := no + 1;
    }
    assert MetaRows(env, v, no) == Ok([]) && rows + [] == rows;
    return Ok(out);
  }

  /** The rows made so far, then the rows still to come or the failure that ends them. */
  function Prefixed(rows: seq<DetailRow>, rest: (Result<seq<DetailRow>>, Shown)): (Result<seq<DetailRow>>, Shown) {
    (if rest.0.Err? then Err(rest.0.error) else Ok(rows + rest.0.value), rest.1)
  }

  lemma PrefixedEmpty(rest: (Result<seq<DetailRow>>, Shown))
    ensures Prefixed([], rest) == rest
  {
    if rest.0.Ok? {
      assert [] + rest.0.value == rest.0.value;
    }
  }

  /** One step of the item loop: the k-th row is made, or its failure ends the rows. */
  lemma ItemRowsStep(env: Env, s: Shown, items: OMap<ItemView>, k: nat, rows: seq<DetailRow>)
    requires FieldCells(items) && k < |items|
    ensures var row := ItemRow(env, s, items[k].0, items[k].1, k + 1);
            Prefixed(rows, ItemRows(env, s, items, k)) ==
              if row.0.Err? then (Err(row.0.error), row.1)
              else Prefixed(rows + [row.0.value], ItemRows(env, row.1, items, k + 1))
  {
    var row := ItemRow(env, s, items[k].0, items[k].1, k + 1);
    if row.0.Ok? {
      var rest := ItemRows(env, row.1, items, k + 1);
      if rest.0.Ok? {
        assert rows + [row.0.value] + rest.0.value == rows + ([row.0.value] + rest.0.value);
      }
    }
  }

  /** The item loop of formatDetail: one row per item appended to lines, its counter restarted at 0. */
  method AppendItemRows(env: Env, s: Shown, items: OMap<ItemView>, delimiter: string, lines: seq<string>) returns (r: Result<seq<string>>, after: Shown)
    requires FieldCells(items)
    ensures var rows := ItemRows(env, s, items, 0);
            r == (if rows.0.Err? then Err(rows.0.error) else Ok(lines + RowTexts(rows.0.value, delimiter))) && after == rows.1
  {
    var out := lines;
    var current := s;
    ghost var rows: seq<DetailRow> := [];
    var no := 0;
    PrefixedEmpty(ItemRows(env, s, items, 0));
    while no < |items|
      invariant 0 <= no <= |items| && |rows| == no
      invariant out == lines + RowTexts(rows, delimiter)
      invariant ItemRows(env, s, items, 0) == Prefixed(rows, ItemRows(env, current, items, no))
    {
      var row := ItemRow(env, current, items[no].0, items[no].1, no + 1);
      ItemRowsStep(env, current, items, no, rows);
      if row.0.Err? {
        return Err(row.0.error), row.1;
      }
      out := out + [RowText(row.0.value, delimiter)];
      rows := rows + [row.0.value];
      current := row.1;
      no := no + 1;
    }
    assert ItemRows(env, current, items, no) == (Ok([]), current) && rows + [] == rows;
    return Ok(out), current;
  }

  // ---------------------------------------------------------------- the exports

  /** The record as the export's consumer sees it when it is the n-th one read: inner "[No.]" set to n. */
  function Numbered(v: RecordView, n: int): (r: RecordView)
    ensures r == v.(inner := r.inner) && NO_KEY in r.inner && r.inner[NO_KEY] == Number(n)
    ensures forall k :: k in v.inner && k != NO_KEY ==> k in r.inner && r.inner[k] == v.inner[k]
  {
    v.(inner := v.inner[NO_KEY := Number(n)])
  }

  /** Whether a record is exported: always when the filter is empty, otherwise as testFilter says. */
  function Kept(env: Env, s: Shown, columns: seq<string>, filter: string, extended: bool): (r: (Result<bool>, Shown))
    requires CellsAreFields(s.view)
    ensures filter == "" ==> r == (Ok(true), s)
    ensures filter != "" ==> r == TestFilter(env, s, columns, filter, extended)
  {
    if filter == "" then (Ok(true), s) else TestFilter(env, s, columns, filter, extended)
  }

  function QuoteAll(values: seq<string>): (r: seq<string>)
    ensures |r| == |values| && forall i :: 0 <= i < |values| ==> r[i] == Quote(values[i])
  {
    seq(|values|, i requires 0 <= i < |values| => Quote(values[i]))
  }

  /**
   * The lines the list export writes for the record read as the n-th: its quoted values in
   * column order joined by the delimiter, or nothing when the filter drops it.
   */
  function ListRecordLines(env: Env, v: RecordView, n: int, columns: seq<string>, delimiter: string, filter: string, extended: bool): (r: Result<seq<string>>)
    requires CellsAreFields(v)
    ensures r.Ok? ==> |r.value| <= 1
    ensures filter == "" && r.Ok? ==> |r.value| == 1
  {
    var kept := Kept(env, Shown(Numbered(v, n), map[]), columns, filter, extended);
    if kept.0.Err? then Err(kept.0.error)
    else if !kept.0.value then Ok([])
    else
      var values := ShowAll(env, kept.1, columns).0;
      if values.Err? then Err(values.error) else Ok([Join(QuoteAll(values.value), delimiter)])
  }

  /** The lines the detail export writes for the record read as the n-th: its detail block and an empty line. */
  function DetailRecordLines(env: Env, v: RecordView, n: int, columns: seq<string>, delimiter: string, filter: string,
                             extended: bool, headerExpression: string): (r: Result<seq<string>>)
    requires CellsAreFields(v)
    ensures r.Ok? && |r.value| > 0 ==> r.value[|r.value| - 1] == ""
    ensures filter == "" && r.Ok? ==> |r.value| > 0
  {
    var kept := Kept(env, Shown(Numbered(v, n), map[]), columns, filter, extended);
    if kept.0.Err? then Err(kept.0.error)
    else if !kept.0.value then Ok([])
    else
      var detail := DetailLines(env, kept.1, headerExpression, delimiter).0;
      if detail.Err? then Err(detail.error) else Ok(detail.value + [""])
  }

  predicate AllFieldCells(records: seq<Result<RecordView>>) {
    forall k :: 0 <= k < |records| && records[k].Ok? ==> CellsAreFields(records[k].value)
  }

  /** Each record's lines in turn, appended to acc, until a record (or the load) fails. */
  function Emit(outs: seq<Result<seq<string>>>, acc: seq<string>): (r: (seq<string>, Outcome))
    ensures |acc| <= |r.0| && r.0[..|acc|] == acc
    ensures r.1.Pass? <==> forall k :: 0 <= k < |outs| ==> outs[k].Ok?
    decreases |outs|
  {
    if |outs| == 0 then (acc, Pass)
    else if outs[0].Err? then (acc, Fail(outs[0].error))
    else Emit(outs[1..], acc + outs[0].value)
  }

  /**
   * Records that each write at most one line write at most one line apiece; when each writes
   * exactly one and none fails, there is a line for every record.
   */
  predicate AtMostOneLine(outs: seq<Result<seq<string>>>) {
    forall k :: 0 <= k < |outs| && outs[k].Ok? ==> |outs[k].value| <= 1
  }

  predicate OneLine(outs: seq<Result<seq<string>>>) {
    forall k :: 0 <= k < |outs| && outs[k].Ok? ==> |outs[k].value| == 1
  }

  lemma {:induction false} EmitLength(outs: seq<Result<seq<string>>>, acc: seq<string>)
    requires AtMostOneLine(outs)
    ensures |acc| <= |Emit(outs, acc).0| <= |acc| + |outs|
    ensures OneLine(outs) && Emit(outs, acc).1.Pass? ==> |Emit(outs, acc).0| == |acc| + |outs|
    decreases |outs|
  {
    if |outs| > 0 && outs[0].Ok? {
      EmitLength(outs[1..], acc + outs[0].value);
    }
  }

  /** What each record read makes the list export write: the load's failure, or ListRecordLines numbered from 1. */
  function ListOutputs(env: Env, records: seq<Result<RecordView>>, columns: seq<string>, delimiter: string, filter: string, extended: bool): (outs: seq<Result<seq<string>>>)
    requires AllFieldCells(records)
    ensures |outs| == |records|
  {
    seq(|records|, k requires 0 <= k < |records| =>
      if records[k].Err? then Err(records[k].error) else ListRecordLines(env, records[k].value, k + 1, columns, delimiter, filter, extended))
  }

  lemma ListOutputsLines(env: Env, records: seq<Result<RecordView>>, columns: seq<string>, delimiter: string, filter: string, extended: bool)
    requires AllFieldCells(records)
    ensures AtMostOneLine(ListOutputs(env, records, columns, delimiter, filter, extended))
    ensures filter == "" ==> OneLine(ListOutputs(env, records, columns, delimiter, filter, extended))
  {
    var outs := ListOutputs(env, records, columns, delimiter, filter, extended);
    forall k | 0 <= k < |outs| && outs[k].Ok?
      ensures |outs[k].value| <= 1 && (filter == "" ==> |outs[k].value| == 1)
    {
      ListOutputAt(env, records, columns, delimiter, filter, extended, k);
    }
  }

  /** What the k-th record read makes the list export write is at most one line, and exactly one with an empty filter. */
  lemma ListOutputAt(env: Env, records: seq<Result<RecordView>>, columns: seq<string>, delimiter: string, filter: string, extended: bool, k: nat)
    requires AllFieldCells(records) && k < |records|
    ensures var out := ListOutputs(env, records, columns, delimiter, filter, extended)[k];
            out.Ok? ==> |out.value| <= 1 && (filter == "" ==> |out.value| == 1)
  {
    if records[k].Ok? {
      var out := ListRecordLines(env, records[k].value, k + 1, columns, delimiter, filter, extended);
      assert ListOutputs(env, records, columns, delimiter, filter, extended)[k] == out;
    }
  }

  /** exportList: the column names joined by the delimiter, unquoted, then the lines of every record read. */
  function ListExport(env: Env, records: seq<Result<RecordView>>, columns: seq<string>, delimiter: string, filter: string, extended: bool): (r: (seq<string>, Outcome))
    requires AllFieldCells(records)
    ensures 1 <= |r.0| && r.0[0] == Join(columns, delimiter)
    ensures r.1.Pass? ==> forall k :: 0 <= k < |records| ==> records[k].Ok?
  {
    var outs := ListOutputs(env, records, columns, delimiter, filter, extended);
    assert forall k :: 0 <= k < |records| && records[k].Err? ==> outs[k] == Err(records[k].error);
    Emit(outs, [Join(columns, delimiter)])
  }

  /**
   * The list export starts with its header and writes at most one row per record; with an
   * empty filter, an export that does not fail writes a row for every record.
   */
  lemma ListExportShape(env: Env, records: seq<Result<RecordView>>, columns: seq<string>, delimiter: string, filter: string, extended: bool)
    requires AllFieldCells(records)
    ensures var r := ListExport(env, records, columns, delimiter, filter, extended);
            1 <= |r.0| <= 1 + |records| && r.0[0] == Join(columns, delimiter) &&
            (filter == "" && r.1.Pass? ==> |r.0| == 1 + |records|)
  {
    var outs := ListOutputs(env, records, columns, delimiter, filter, extended);
    ListOutputsLines(env, records, columns, delimiter, filter, extended);
    EmitLength(outs, [Join(columns, delimiter)]);
    EmitKeepsPrefix(outs, [Join(columns, delimiter)]);
  }

  lemma {:induction false} EmitKeepsPrefix(outs: seq<Result<seq<string>>>, acc: seq<string>)
    ensures |acc| <= |Emit(outs, acc).0| && Emit(outs, acc).0[..|acc|] == acc
    decreases |outs|
  {
    if |outs| > 0 && outs[0].Ok? {
      EmitKeepsPrefix(outs[1..], acc + outs[0].value);
      assert (acc + outs[0].value)[..|acc|] == acc;
    }
  }

  /** One record of the loop of an export: Emit over the records left, from the lines written so far. */
  lemma EmitStep(outs: seq<Result<seq<string>>>, k: nat, lines: seq<string>)
    requires k < |outs|
    ensures Emit(outs[k..], lines) ==
              if outs[k].Err? then (lines, Fail(outs[k].error)) else Emit(outs[k + 1..], lines + outs[k].value)
  {
    assert outs[k..][0] == outs[k] && outs[k..][1..] == outs[k + 1..];
  }

  /**
   * exportList as the loop of the source runs it: the header written first, then for every
   * record read the counter incremented, the record numbered and, if kept, its row written.
   */
  method ExportList(env: Env, records: seq<Result<RecordView>>, columns: seq<string>, delimiter: string, filter: string, extended: bool)
      returns (lines: seq<string>, r: Outcome)
    requires AllFieldCells(records)
    ensures (lines, r) == ListExport(env, records, columns, delimiter, filter, extended)
  {
    ghost var outs := ListOutputs(env, records, columns, delimiter, filter, extended);
    lines := [Join(columns, delimiter)];
    var no := 0;
    var k := 0;
    while k < |records|
      invariant 0 <= k <= |records| && no == k
      invariant Emit(outs, [Join(columns, delimiter)]) == Emit(outs[k..], lines)
    {
      EmitStep(outs, k, lines);
      if records[k].Err? {
        return lines, Fail(records[k].error);
      }
      no := no + 1;
      var out := ListRecordLines(env, records[k].value, no, columns, delimiter, filter, extended);
      if out.Err? {
        return lines, Fail(out.error);
      }
      lines := lines + out.value;
      k := k + 1;
    }
    return lines, Pass;
  }

  /** The consumer of exportDetails for one record: the filter, then formatDetail and an empty line. */
  method DetailRecord(env: Env, v: RecordView, n: int, columns: seq<string>, delimiter: string, filter: string,
                      extended: bool, headerExpression: string) returns (out: Result<seq<string>>)
    requires CellsAreFields(v)
    ensures out == DetailRecordLines(env, v, n, columns, delimiter, filter, extended, headerExpression)
  {
    var kept := Kept(env, Shown(Numbered(v, n), map[]), columns, filter, extended);
    if kept.0.Err? {
      return Err(kept.0.error);
    }
    if !kept.0.value {
      return Ok([]);
    }
    var detail, _ := FormatDetail(env, kept.1, headerExpression, delimiter);
    if detail.Err? {
      return Err(detail.error);
    }
    return Ok(detail.value + [""]);
  }

  function DetailOutputs(env: Env, records: seq<Result<RecordView>>, columns: seq<string>, delimiter: string, filter: string,
                         extended: bool, headerExpression: string): (outs: seq<Result<seq<string>>>)
    requires AllFieldCells(records)
    ensures |outs| == |records|
  {
    seq(|records|, k requires 0 <= k < |records| =>
      if records[k].Err? then Err(records[k].error)
      else DetailRecordLines(env, records[k].value, k + 1, columns, delimiter, filter, extended, headerExpression))
  }

  /** exportDetails: the detail block of every record read that the filter keeps, numbered by read count. */
  method ExportDetails(env: Env, records: seq<Result<RecordView>>, columns: seq<string>, delimiter: string, filter: string,
                       extended: bool, headerExpression: string) returns (lines: seq<string>, r: Outcome)
    requires AllFieldCells(records)
    ensures (lines, r) == Emit(DetailOutputs(env, records, columns, delimiter, filter, extended, headerExpression), [])
  {
    ghost var outs := DetailOutputs(env, records, columns, delimiter, filter, extended, headerExpression);
    lines := [];
    var no := 0;
    var k := 0;
    while k < |records|
      invariant 0 <= k <= |records| && no == k
      invariant Emit(outs, []) == Emit(outs[k..], lines)
    {
      EmitStep(outs, k, lines);
      if records[k].Err? {
        return lines, Fail(records[k].error);
      }
      no := no + 1;
      var out := DetailRecord(env, records[k].value, no, columns, delimiter, filter, extended, headerExpression);
      if out.Err? {
        return lines, Fail(out.error);
      }
      lines := lines + out.value;
      k := k + 1;
    }
    return lines, Pass;
  }

  /**
   * What the file export does for the record read as the n-th: nothing when the filter drops
   * it; otherwise the evaluated file name, cleaned and resolved in the output directory, and
   * the detail block with an empty line to write there.
   */
  function FileRecord(env: Env, v: RecordView, n: int, columns: seq<string>, delimiter: string, filter: string, extended: bool,
                      headerExpression: string, fileNameExpression: string): (r: Result<Option<(string, seq<string>)>>)
    requires CellsAreFields(v)
    ensures r.Ok? && r.value.Some? ==>
              OutputFile(r.value.value.0).Ok? && forall i :: 0 <= i < |r.value.value.0| ==> !InvalidFileNameChar(r.value.value.0[i])
  {
    var kept := Kept(env, Shown(Numbered(v, n), map[]), columns, filter, extended);
    if kept.0.Err? then Err(kept.0.error)
    else if !kept.0.value then Ok(None)
    else
      match env.eval(fileNameExpression, kept.1.view, [])
      case Failure(d) => Err(Evaluation(d))
      case Evaluated(text) =>
        var name := RemoveInvalidFileNameChars(text);
        if '\0' in name then Err(IllegalArgument("Nul character not allowed"))
        else
          var detail := DetailLines(env, kept.1, headerExpression, delimiter).0;
          if detail.Err? then Err(detail.error)
          else
            var file := OutputFile(name);
            if file.Err? then Err(file.error) else Ok(Some((file.value, detail.value + [""])))
  }

  function FileOutputs(env: Env, records: seq<Result<RecordView>>, columns: seq<string>, delimiter: string, filter: string, extended: bool,
                       headerExpression: string, fileNameExpression: string): (outs: seq<Result<Option<(string, seq<string>)>>>)
    requires AllFieldCells(records)
    ensures |outs| == |records|
  {
    seq(|records|, k requires 0 <= k < |records| =>
      if records[k].Err? then Err(records[k].error)
      else FileRecord(env, records[k].value, k + 1, columns, delimiter, filter, extended, headerExpression, fileNameExpression))
  }

  /** The output directory after the files of the records are written in turn, each replacing a file of its name. */
  function WriteFiles(outs: seq<Result<Option<(string, seq<string>)>>>, files: map<string, seq<string>>): (r: (map<string, seq<string>>, Outcome))
    ensures files.Keys <= r.0.Keys
    decreases |outs|
  {
    if |outs| == 0 then (files, Pass)
    else if outs[0].Err? then (files, Fail(outs[0].error))
    else WriteFiles(outs[1..], if outs[0].value.Some? then files[outs[0].value.value.0 := outs[0].value.value.1] else files)
  }

  /** A file no later record writes keeps what it held. */
  lemma {:induction false} WriteFilesKeeps(outs: seq<Result<Option<(string, seq<string>)>>>, files: map<string, seq<string>>, name: string)
    requires name in files
    requires forall j :: 0 <= j < |outs| && outs[j].Ok? && outs[j].value.Some? ==> outs[j].value.value.0 != name
    ensures name in WriteFiles(outs, files).0 && WriteFiles(outs, files).0[name] == files[name]
    decreases |outs|
  {
    if |outs| > 0 && outs[0].Ok? {
      var next := if outs[0].value.Some? then files[outs[0].value.value.0 := outs[0].value.value.1] else files;
      assert next[name] == files[name];
      WriteFilesKeeps(outs[1..], next, name);
    }
  }

  /**
   * Files.write replaces a file of the same name, so when the export does not fail, each
   * record's file holds its lines unless a later record writes a file of the same name.
   */
  lemma {:induction false} WriteFilesLastWins(outs: seq<Result<Option<(string, seq<string>)>>>, files: map<string, seq<string>>, k: nat)
    requires WriteFiles(outs, files).1.Pass?
    requires k < |outs| && outs[k].Ok? && outs[k].value.Some?
    requires forall j :: k < j < |outs| && outs[j].Ok? && outs[j].value.Some? ==> outs[j].value.value.0 != outs[k].value.value.0
    ensures var f := outs[k].value.value;
            f.0 in WriteFiles(outs, files).0 && WriteFiles(outs, files).0[f.0] == f.1
    decreases |outs|
  {
    var next := if outs[0].value.Some? then files[outs[0].value.value.0 := outs[0].value.value.1] else files;
    if k == 0 {
      WriteFilesKeeps(outs[1..], next, outs[0].value.value.0);
    } else {
      WriteFilesLastWins(outs[1..], next, k - 1);
    }
  }

  /** exportDetailsFiles: a file in the output directory for every record read that the filter keeps. */
  method ExportDetailsFiles(env: Env, records: seq<Result<RecordView>>, columns: seq<string>, delimiter: string, filter: string,
                            extended: bool, headerExpression: string, fileNameExpression: string, files: map<string, seq<string>>)
      returns (written: map<string, seq<string>>, r: Outcome)
    requires AllFieldCells(records)
    ensures (written, r) == WriteFiles(FileOutputs(env, records, columns, delimiter, filter, extended, headerExpression, fileNameExpression), files)
  {
    ghost var outs := FileOutputs(env, records, columns, delimiter, filter, extended, headerExpression, fileNameExpression);
    written := files;
    var no := 0;
    var k := 0;
    while k < |records|
      invariant 0 <= k <= |records| && no == k
      invariant WriteFiles(outs, files) == WriteFiles(outs[k..], written)
    {
      assert outs[k..][0] == outs[k] && outs[k..][1..] == outs[k + 1..];
      if records[k].Err? {
        return written, Fail(records[k].error);
      }
      no := no + 1;
      var out := FileRecord(env, records[k].value, no, columns, delimiter, filter, extended, headerExpression, fileNameExpression);
      if out.Err? {
        return written, Fail(out.error);
      }
      if out.value.Some? {
        written := written[out.value.value.0 := out.value.value.1];
      }
      k := k + 1;
    }
    return written, Pass;
  }
}
