/**
 * DataParser: fills a record from a dump layout. The first layout whose condition holds is
 * walked depth first; string and hex items are placed at a running offset that each placed
 * item advances by its length, meta and hidden items become expression entries, and a
 * trailing hex padding item covers whatever the layout left unread.
 */
module DataParser {
  import opened Wrappers
  import opened OrderedMaps
  import opened Splitting
  import opened ItemDefinitions
  import opened RecordViews
  import opened ItemBehaviour
  import opened Records
  import opened RecordFormats
  import opened RecordSets

  const NoLayoutMessage: string := "不明なレコード形式(適用可能なdumpLayoutsが見つからない)"

  /** The name handed to the children of a group named itemName inside path groupName. */
  function ChildPath(groupName: string, itemName: string): (r: string)
    ensures r == "" <==> groupName == "" && itemName == ""
    ensures itemName != "" ==> |itemName| <= |r| && r[|r| - |itemName|..] == itemName
    ensures itemName == "" ==> r == groupName
  {
    if groupName != "" && itemName != "" then groupName + "." + itemName
    else if itemName == "" then groupName
    else itemName
  }

  function NonEmpty(names: seq<string>): (r: seq<string>)
    ensures forall i :: 0 <= i < |r| ==> r[i] != ""
  {
    if |names| == 0 then []
    else if names[|names| - 1] == "" then NonEmpty(names[..|names| - 1])
    else NonEmpty(names[..|names| - 1]) + [names[|names| - 1]]
  }

  /** The names of the enclosing groups that have one, joined with dots. */
  function JoinNonEmpty(names: seq<string>): string {
    Join(NonEmpty(names), ".")
  }

  lemma {:induction false} JoinAppend(parts: seq<string>, p: string)
    ensures Join(parts + [p], ".") == if |parts| == 0 then p else Join(parts, ".") + "." + p
    decreases |parts|
  {
    if |parts| > 1 {
      assert (parts + [p])[1..] == parts[1..] + [p];
      JoinAppend(parts[1..], p);
    }
  }

  lemma {:induction false} JoinNonEmptyIsEmpty(parts: seq<string>)
    requires forall i :: 0 <= i < |parts| ==> parts[i] != ""
    ensures Join(parts, ".") == "" <==> |parts| == 0
    decreases |parts|
  {
    if |parts| > 1 {
      JoinNonEmptyIsEmpty(parts[1..]);
    }
  }

  /**
   * The path a group hands to its children is the dotted join of every named group from the
   * root down to it: unnamed groups leave no trace and no dot is doubled.
   */
  lemma ChildPathJoins(names: seq<string>, n: string)
    ensures ChildPath(JoinNonEmpty(names), n) == JoinNonEmpty(names + [n])
  {
    var ns := names + [n];
    assert ns[..|ns| - 1] == names;
    JoinAppend(NonEmpty(names), n);
    JoinNonEmptyIsEmpty(NonEmpty(names));
  }

  /** The path is empty exactly when no enclosing group has a name; a leaf key then starts with a dot. */
  lemma AnonymousPath(names: seq<string>, leaf: string)
    requires forall i :: 0 <= i < |names| ==> names[i] == ""
    ensures JoinNonEmpty(names) == ""
    ensures (JoinNonEmpty(names) + "." + leaf)[0] == '.'
  {
    AllEmptyDropped(names);
  }

  lemma {:induction false} AllEmptyDropped(names: seq<string>)
    requires forall i :: 0 <= i < |names| ==> names[i] == ""
    ensures NonEmpty(names) == []
    decreases |names|
  {
    if |names| > 0 {
      AllEmptyDropped(names[..|names| - 1]);
    }
  }

  /** The parser fills a record's items and meta entries; its raw data, length and error flag stay as they were. */
  predicate SameRecord(a: RecordView, b: RecordView) {
    a.isError == b.isError && a.raw == b.raw && a.length == b.length
  }

  /** Where a string or hex item was placed: its key, definition, offset and length. */
  datatype Placement = Placement(key: string, definition: Node, offset: int, length: int)

  /** The record as it is being filled, and the parser's running offset. */
  datatype WalkState = WalkState(view: RecordView, offset: int)

  datatype WalkResult = WalkResult(state: WalkState, added: bool, placed: seq<Placement>)

  /** What happened to each child of a group: skipped as part of a taken chain, or walked. */
  datatype ChildOutcome = Skipped | Walked(added: bool)

  datatype ChildrenResult = ChildrenResult(state: WalkState, outcomes: seq<ChildOutcome>, placed: seq<Placement>)

  /**
   * parseItems(groupName, n): a group whose condition fails adds nothing and reports false;
   * any other node reports true. A meta or hidden node stores an expression entry under its
   * bare name. A string or hex item is stored under groupName.name at the running offset,
   * which then advances by the item's length computed on the record as it now stands.
   */
  function Walk(env: Env, s: WalkState, groupName: string, n: Node): (r: WalkResult)
    ensures SameRecord(s.view, r.state.view)
    decreases n, 1
  {
    match n
    case Group(name, children, condition, _) =>
      if !EvalAsBoolean(env, s.view, condition, []) then WalkResult(s, false, [])
      else
        var c := WalkChildren(env, s, ChildPath(groupName, name), n, 0, false);
        WalkResult(c.state, true, c.placed)
    case Meta(name, e) =>
      WalkResult(s.(view := s.view.(meta := Put(s.view.meta, name, Expression(e, false)))), true, [])
    case Hidden(name, e) =>
      WalkResult(s.(view := s.view.(inner := s.view.inner[name := Expression(e, false)])), true, [])
    case _ =>
      var key := groupName + "." + n.name;
      var v := s.view.(items := Put(s.view.items, key, CellItem(n, s.offset)));
      var t := FieldLength(env, n, v, s.offset);
      WalkResult(WalkState(ApplyDiagnostics(v, t.diagnostics), s.offset + t.value), true,
                 [Placement(key, n, s.offset, t.value)])
  }

  /**
   * The loop over a group's children from index i on: an ELSIF or ELSE group is skipped
   * while the previous child reported true; every other child is walked and its report
   * becomes the new flag.
   */
  function WalkChildren(env: Env, s: WalkState, path: string, g: Node, i: nat, isAdded: bool): (r: ChildrenResult)
    requires g.Group? && i <= |g.children|
    ensures |r.outcomes| == |g.children| - i
    ensures SameRecord(s.view, r.state.view)
    decreases g, 0, |g.children| - i
  {
    if i == |g.children| then ChildrenResult(s, [], [])
    else
      var c := g.children[i];
      if isAdded && c.IsContinuation() then
        var rest := WalkChildren(env, s, path, g, i + 1, isAdded);
        rest.(outcomes := [Skipped] + rest.outcomes)
      else
        var w := Walk(env, s, path, c);
        var rest := WalkChildren(env, w.state, path, g, i + 1, w.added);
        ChildrenResult(rest.state, [Walked(w.added)] + rest.outcomes, w.placed + rest.placed)
  }

  /**
   * What parseItems reports: false exactly for a group whose condition fails, and such a
   * group changes nothing. Meta and hidden nodes do not move the offset.
   */
  lemma WalkReport(env: Env, s: WalkState, groupName: string, n: Node)
    ensures var r := Walk(env, s, groupName, n);
            (r.added <==> !n.Group? || EvalAsBoolean(env, s.view, n.condition, [])) &&
            (!r.added ==> r.state == s && r.placed == []) &&
            ((n.Meta? || n.Hidden?) ==> r.state.offset == s.offset && r.placed == [])
  {
  }

  /** The placements are laid end to end: each starts where the previous one ended. */
  predicate Contiguous(start: int, placed: seq<Placement>, end: int)
    decreases |placed|
  {
    if |placed| == 0 then end == start
    else placed[0].offset == start && Contiguous(start + placed[0].length, placed[1..], end)
  }

  lemma {:induction false} ContiguousAppend(start: int, p: seq<Placement>, mid: int, q: seq<Placement>, end: int)
    requires Contiguous(start, p, mid) && Contiguous(mid, q, end)
    ensures Contiguous(start, p + q, end)
    decreases |p|
  {
    if |p| > 0 {
      assert (p + q)[1..] == p[1..] + q;
      ContiguousAppend(start + p[0].length, p[1..], mid, q, end);
    } else {
      assert p + q == q;
    }
  }

  /**
   * The running offset: every item is placed where the previous one ended, the first one at
   * the starting offset, and the walk ends after the last one.
   */
  lemma {:induction false} WalkContiguous(env: Env, s: WalkState, groupName: string, n: Node)
    ensures Contiguous(s.offset, Walk(env, s, groupName, n).placed, Walk(env, s, groupName, n).state.offset)
    decreases n, 1
  {
    if n.Group? && EvalAsBoolean(env, s.view, n.condition, []) {
      WalkChildrenContiguous(env, s, ChildPath(groupName, n.name), n, 0, false);
    } else if n.IsField() {
      var w := Walk(env, s, groupName, n);
      assert w.placed[1..] == [];
    }
  }

  lemma {:induction false} WalkChildrenContiguous(env: Env, s: WalkState, path: string, g: Node, i: nat, isAdded: bool)
    requires g.Group? && i <= |g.children|
    ensures Contiguous(s.offset, WalkChildren(env, s, path, g, i, isAdded).placed,
                       WalkChildren(env, s, path, g, i, isAdded).state.offset)
    decreases g, 0, |g.children| - i
  {
    if i < |g.children| {
      var c := g.children[i];
      if isAdded && c.IsContinuation() {
        WalkChildrenContiguous(env, s, path, g, i + 1, isAdded);
      } else {
        var w := Walk(env, s, path, c);
        WalkContiguous(env, s, path, c);
        WalkChildrenContiguous(env, w.state, path, g, i + 1, w.added);
        var rest := WalkChildren(env, w.state, path, g, i + 1, w.added);
        ContiguousAppend(s.offset, w.placed, w.state.offset, rest.placed, rest.state.offset);
      }
    }
  }

  function SumLengths(placed: seq<Placement>): int {
    if |placed| == 0 then 0 else SumLengths(placed[..|placed| - 1]) + placed[|placed| - 1].length
  }

  /** Laid end to end, the k-th item starts at the start plus the lengths of the items before it. */
  lemma {:induction false} ContiguousOffsets(start: int, placed: seq<Placement>, end: int)
    requires Contiguous(start, placed, end)
    ensures forall k :: 0 <= k < |placed| ==> placed[k].offset == start + SumLengths(placed[..k])
    ensures end == start + SumLengths(placed)
    decreases |placed|
  {
    if |placed| > 0 {
      var t := placed[1..];
      ContiguousOffsets(start + placed[0].length, t, end);
      forall k | 0 <= k <= |placed|
        ensures SumLengths(placed[..k]) == if k == 0 then 0 else placed[0].length + SumLengths(t[..k - 1])
      {
        SumLengthsCons(placed[..k]);
        if k > 0 {
          assert placed[..k][1..] == t[..k - 1];
        }
      }
      assert placed[..|placed|] == placed;
    }
  }

  lemma {:induction false} SumLengthsCons(p: seq<Placement>)
    ensures SumLengths(p) == if |p| == 0 then 0 else p[0].length + SumLengths(p[1..])
    decreases |p|
  {
    if |p| > 1 {
      SumLengthsCons(p[..|p| - 1]);
      assert p[..|p| - 1][1..] == p[1..][..|p| - 2];
    }
  }

  /** Once a child reports true, the ELSIF and ELSE groups right after it are all skipped. */
  lemma {:induction false} SkipRun(env: Env, s: WalkState, path: string, g: Node, m: nat, k: nat)
    requires g.Group? && m <= k < |g.children|
    requires forall j :: m <= j <= k ==> g.children[j].IsContinuation()
    ensures WalkChildren(env, s, path, g, m, true).outcomes[k - m] == Skipped
    decreases k - m
  {
    if m < k {
      SkipRun(env, s, path, g, m + 1, k);
    }
  }

  /**
   * At most one branch of an if/elsif/else chain is walked: when the group at index i reports
   * true, every later group of the same chain (an unbroken run of ELSIF and ELSE groups after
   * it) is skipped.
   */
  lemma {:induction false} ChainExclusive(env: Env, s: WalkState, path: string, g: Node, m: nat, isAdded: bool, i: nat, k: nat)
    requires g.Group? && m <= i < k < |g.children|
    requires forall j :: i < j <= k ==> g.children[j].IsContinuation()
    requires WalkChildren(env, s, path, g, m, isAdded).outcomes[i - m] == Walked(true)
    ensures WalkChildren(env, s, path, g, m, isAdded).outcomes[k - m] == Skipped
    decreases i - m
  {
    var c := g.children[m];
    var here := WalkChildren(env, s, path, g, m, isAdded).outcomes;
    if isAdded && c.IsContinuation() {
      assert here == [Skipped] + WalkChildren(env, s, path, g, m + 1, isAdded).outcomes;
      ChainExclusive(env, s, path, g, m + 1, isAdded, i, k);
    } else {
      var w := Walk(env, s, path, c);
      var next := WalkChildren(env, w.state, path, g, m + 1, w.added).outcomes;
      assert here == [Walked(w.added)] + next;
      if m == i {
        SkipRun(env, w.state, path, g, m + 1, k);
      } else {
        assert next[i - (m + 1)] == here[i - m];
        ChainExclusive(env, w.state, path, g, m + 1, w.added, i, k);
      }
    }
  }

  /** The condition a dump layout is selected by (getCondition of its root group). */
  function LayoutCondition(layout: Node): Option<string> {
    if layout.Group? then layout.condition else None
  }

  predicate Accepts(env: Env, v: RecordView, layout: Node) {
    EvalAsBoolean(env, v, LayoutCondition(layout), [])
  }

  /** Layout i is the first one accepted, and every layout before it exists and is refused. */
  predicate FirstAccepted(env: Env, v: RecordView, layouts: seq<Option<Node>>, i: nat) {
    i < |layouts| && layouts[i].Some? && Accepts(env, v, layouts[i].value) &&
    forall j :: 0 <= j < i ==> layouts[j].Some? && !Accepts(env, v, layouts[j].value)
  }

  /**
   * The stream filter/findFirst over the dump layouts: the first layout whose condition
   * holds, none when all are refused; a missing layout reached before that throws.
   */
  function SelectLayout(env: Env, v: RecordView, layouts: seq<Option<Node>>): (r: Result<Option<Node>>)
    ensures r.Ok? && r.value.Some? ==> r.value in layouts && Accepts(env, v, r.value.value)
    ensures r.Err? ==> r.error == NullPointer
    decreases |layouts|
  {
    if |layouts| == 0 then Ok(None)
    else if layouts[0].None? then Err(NullPointer)
    else if Accepts(env, v, layouts[0].value) then Ok(layouts[0])
    else SelectLayout(env, v, layouts[1..])
  }

  /**
   * The layout chosen is the first one accepted, later ones are not consulted; none is
   * chosen exactly when every layout exists and is refused; any other outcome is the
   * NullPointerException of a missing layout.
   */
  lemma {:induction false} SelectLayoutSpec(env: Env, v: RecordView, layouts: seq<Option<Node>>)
    ensures var r := SelectLayout(env, v, layouts);
            (forall i :: 0 <= i < |layouts| && FirstAccepted(env, v, layouts, i) ==> r == Ok(layouts[i])) &&
            (r.Ok? && r.value.Some? ==> exists i :: 0 <= i < |layouts| && FirstAccepted(env, v, layouts, i) && layouts[i] == r.value) &&
            (r == Ok(None) <==> forall j :: 0 <= j < |layouts| ==> layouts[j].Some? && !Accepts(env, v, layouts[j].value)) &&
            (r.Err? ==> r.error == NullPointer)
    decreases |layouts|
  {
    if |layouts| > 0 && layouts[0].Some? && !Accepts(env, v, layouts[0].value) {
      SelectLayoutSpec(env, v, layouts[1..]);
      assert forall i :: 1 <= i < |layouts| && FirstAccepted(env, v, layouts, i) ==> FirstAccepted(env, v, layouts[1..], i - 1);
      assert forall i :: 0 <= i < |layouts| - 1 && FirstAccepted(env, v, layouts[1..], i) ==> FirstAccepted(env, v, layouts, i + 1);
      assert forall j :: 0 <= j < |layouts| - 1 ==> layouts[1..][j] == layouts[j + 1];
    } else if |layouts| > 0 && layouts[0].Some? {
      assert FirstAccepted(env, v, layouts, 0);
    }
  }

  /** The format's meta expressions added in order, each as a non-removable expression entry. */
  function PutExpressions(meta: OMap<Value>, expressions: seq<(string, string)>, removable: bool): (r: OMap<Value>)
    ensures DistinctKeys(meta) ==> DistinctKeys(r)
    decreases |expressions|
  {
    if |expressions| == 0 then meta
    else PutExpressions(Put(meta, expressions[0].0, Expression(expressions[0].1, removable)), expressions[1..], removable)
  }

  /** The walked layout with the padding item added when the walk stopped short of the record's length. */
  function Pad(w: WalkState, length: int): (r: RecordView)
    ensures SameRecord(w.view, r) && r.meta == w.view.meta && r.inner == w.view.inner
    ensures forall k :: k != Padding.name ==> Get(r.items, k) == Get(w.view.items, k)
  {
    if w.offset < length then w.view.(items := Put(w.view.items, Padding.name, CellItem(Padding, w.offset)))
    else w.view
  }

  /** The format's meta expressions, added last. */
  function AddFormatMeta(v: RecordView, format: RecordFormat): (r: RecordView)
    ensures r == v.(meta := r.meta)
    ensures DistinctKeys(v.meta) ==> DistinctKeys(r.meta)
  {
    v.(meta := PutExpressions(v.meta, format.metaItemExpressions, false))
  }

  /**
   * parseRecord on a record as it stands: the selected layout walked from offset 0 with an
   * empty group name, padding added when the walk stopped short of the record's length (or
   * the error entry when no layout applies), then the format's meta expressions. A missing
   * layout leaves the record as it was and the NullPointerException is rethrown wrapped.
   */
  function ParseRecordView(env: Env, v: RecordView, format: RecordFormat): (r: Result<RecordView>)
    ensures r.Ok? ==> SameRecord(v, r.value)
    ensures r.Err? ==> r.error == Wrapped(NullPointer)
  {
    match SelectLayout(env, v, format.dumpLayouts)
    case Err(e) => Err(Wrapped(e))
    case Ok(None) => Ok(AddFormatMeta(PutMeta(v, "[エラー]", Text(NoLayoutMessage)), format))
    case Ok(Some(root)) => Ok(AddFormatMeta(Pad(Walk(env, WalkState(v, 0), "", root).state, v.length), format))
  }

  /** No layout applies: no item is added, and the error entry precedes the format's meta items. */
  lemma NoLayoutError(env: Env, v: RecordView, format: RecordFormat)
    requires forall j :: 0 <= j < |format.dumpLayouts| ==>
               format.dumpLayouts[j].Some? && !Accepts(env, v, format.dumpLayouts[j].value)
    ensures ParseRecordView(env, v, format).Ok?
    ensures ParseRecordView(env, v, format).value.items == v.items
    ensures HasKey(ParseRecordView(env, v, format).value.meta, "[エラー]")
  {
    SelectLayoutSpec(env, v, format.dumpLayouts);
    var m := Put(v.meta, "[エラー]", Text(NoLayoutMessage));
    assert HasKey(m, "[エラー]");
    PutExpressionsKeepsKeys(m, format.metaItemExpressions, false, "[エラー]");
  }

  lemma {:induction false} PutExpressionsKeepsKeys(meta: OMap<Value>, expressions: seq<(string, string)>, removable: bool, k: string)
    requires HasKey(meta, k)
    ensures HasKey(PutExpressions(meta, expressions, removable), k)
    decreases |expressions|
  {
    if |expressions| > 0 {
      var m := Put(meta, expressions[0].0, Expression(expressions[0].1, removable));
      assert Get(meta, k).Some?;
      assert Get(m, k).Some? by {
        if k != expressions[0].0 {
          assert Get(m, k) == Get(meta, k);
        } else {
          assert HasKey(meta, expressions[0].0);
          assert Keys(m) == Keys(meta);
          var i :| 0 <= i < |meta| && meta[i].0 == k;
          assert m[i].0 == k;
        }
      }
      PutExpressionsKeepsKeys(m, expressions[1..], removable, k);
    }
  }

  /**
   * The padding item is added exactly when the walk stopped short of the record's length;
   * it starts where the walk stopped and runs to the end of the record.
   */
  lemma PaddingSpansToEnd(env: Env, v: RecordView, format: RecordFormat, root: Node)
    requires SelectLayout(env, v, format.dumpLayouts) == Ok(Some(root))
    ensures var w := Walk(env, WalkState(v, 0), "", root).state;
            var r := ParseRecordView(env, v, format).value;
            (w.offset < v.length ==> Get(r.items, Padding.name) == Some(CellItem(Padding, w.offset)) &&
                                     FieldLength(env, Padding, v, w.offset) == Traced(v.length - w.offset, [])) &&
            (w.offset >= v.length ==> r.items == w.view.items)
  {
    var w := Walk(env, WalkState(v, 0), "", root).state;
    var p := Pad(w, v.length);
    assert ParseRecordView(env, v, format) == Ok(AddFormatMeta(p, format));
    PadSpec(w, v.length);
    PaddingLength(env, v, w.offset);
  }

  lemma PadSpec(w: WalkState, length: int)
    ensures w.offset < length ==> Get(Pad(w, length).items, Padding.name) == Some(CellItem(Padding, w.offset))
    ensures w.offset >= length ==> Pad(w, length).items == w.view.items
  {
  }

  /** The parser's status: the running offset, shared down the recursive walk. */
  class ParserStatus {
    var offset: int

    constructor ()
      ensures offset == 0
    {
      offset := 0;
    }
  }

  /** parseItems, proved against Walk. */
  method ParseItems(env: Env, groupName: string, n: Node, rec: Record, status: ParserStatus) returns (added: bool)
    requires rec.Valid() && !rec.isError
    modifies rec, status
    ensures rec.Valid()
    ensures var w := Walk(env, WalkState(old(rec.View()), old(status.offset)), groupName, n);
            w.state == WalkState(rec.View(), status.offset) && w.added == added
    decreases n, 1
  {
    match n
    case Group(name, children, condition, _) =>
      if !EvalAsBoolean(env, rec.View(), condition, []) {
        return false;
      }
      ParseChildren(env, ChildPath(groupName, name), n, rec, status);
      return true;
    case Meta(name, e) =>
      rec.PutMeta(name, Expression(e, false));
      return true;
    case Hidden(name, e) =>
      rec.PutInner(name, Expression(e, false));
      return true;
    case _ =>
      PlaceField(env, groupName + "." + n.name, n, rec, status);
      return true;
  }

  /** The loop of parseItems over the children of a group whose condition held. */
  method ParseChildren(env: Env, path: string, g: Node, rec: Record, status: ParserStatus)
    requires g.Group? && rec.Valid() && !rec.isError
    modifies rec, status
    ensures rec.Valid()
    ensures WalkChildren(env, WalkState(old(rec.View()), old(status.offset)), path, g, 0, false).state ==
            WalkState(rec.View(), status.offset)
    decreases g, 0
  {
    ghost var start := WalkState(rec.View(), status.offset);
    var isAdded := false;
    var i := 0;
    while i < |g.children|
      invariant i <= |g.children|
      invariant rec.Valid()
      invariant WalkChildren(env, start, path, g, 0, false).state ==
                WalkChildren(env, WalkState(rec.View(), status.offset), path, g, i, isAdded).state
    {
      var child := g.children[i];
      if isAdded && child.IsContinuation() {
        i := i + 1;
        continue;
      }
      isAdded := ParseItems(env, path, child, rec, status);
      i := i + 1;
    }
  }

  /** A string or hex item: stored under key at the running offset, which then advances by its length. */
  method PlaceField(env: Env, key: string, n: Node, rec: Record, status: ParserStatus)
    requires n.IsField() && rec.Valid() && !rec.isError
    modifies rec, status
    ensures rec.Valid()
    ensures var v := old(rec.View()).(items := Put(old(rec.View()).items, key, CellItem(n, old(status.offset))));
            var t := FieldLength(env, n, v, old(status.offset));
            rec.View() == ApplyDiagnostics(v, t.diagnostics) && status.offset == old(status.offset) + t.value
  {
    var cell := new RecordItemImpl(rec, n, status.offset);
    var _ := rec.PutItem(key, Item(cell));
    var length := DefinitionLength(env, n, rec, status.offset);
    status.offset := status.offset + length;
  }

  /** parseRecord, proved against ParseRecordView. */
  method ParseRecord(env: Env, rec: Record, format: RecordFormat) returns (r: Outcome)
    requires rec.Valid() && !rec.isError
    modifies rec
    ensures rec.Valid()
    ensures var p := ParseRecordView(env, old(rec.View()), format);
            (p.Err? ==> r == Fail(p.error) && rec.View() == old(rec.View())) &&
            (p.Ok? ==> r == Pass && rec.View() == p.value)
  {
    var selected := SelectLayout(env, rec.View(), format.dumpLayouts);
    if selected.Err? {
      return Fail(Wrapped(selected.error));
    }
    if selected.value.Some? {
      ParseLayout(env, rec, selected.value.value);
    } else {
      rec.PutMeta("[エラー]", Text(NoLayoutMessage));
    }
    PutMetaExpressions(rec, format.metaItemExpressions);
    return Pass;
  }

  /** The selected layout's branch of parseRecord: the walk from offset 0, then the padding item. */
  method ParseLayout(env: Env, rec: Record, root: Node)
    requires rec.Valid() && !rec.isError
    modifies rec
    ensures rec.Valid()
    ensures rec.View() == Pad(Walk(env, WalkState(old(rec.View()), 0), "", root).state, old(rec.View()).length)
  {
    var status := new ParserStatus();
    var _ := ParseItems(env, "", root, rec, status);
    if status.offset < rec.length {
      var cell := new RecordItemImpl(rec, Padding, status.offset);
      var _ := rec.PutItem(Padding.name, Item(cell));
    }
  }

  /** The forEach over the format's meta expressions: each put as a non-removable expression entry. */
  method PutMetaExpressions(rec: Record, es: seq<(string, string)>)
    requires rec.Valid()
    modifies rec
    ensures rec.Valid()
    ensures rec.View() == old(rec.View()).(meta := PutExpressions(old(rec.meta), es, false))
  {
    ghost var v0 := rec.View();
    var i := 0;
    while i < |es|
      invariant i <= |es|
      invariant rec.Valid()
      invariant v0.(meta := PutExpressions(v0.meta, es, false)) ==
                rec.View().(meta := PutExpressions(rec.meta, es[i..], false))
    {
      assert es[i..][1..] == es[i + 1..];
      rec.PutMeta(es[i].0, Expression(es[i].1, false));
      i := i + 1;
    }
  }

  /** An entry updateMetaItems removes: an expression item marked removable. */
  predicate IsRemovable(value: Value) { value.Expression? && value.removable }

  /** A record's meta map after updateMetaItems: removable expressions dropped, then the new items put as removable. */
  function UpdatedMeta(meta: OMap<Value>, additional: seq<(string, string)>): (r: OMap<Value>)
    ensures DistinctKeys(meta) ==> DistinctKeys(r)
  {
    PutExpressions(RemoveIf(meta, IsRemovable), additional, true)
  }

  /** After a run of puts, a key that none of them names keeps what it held. */
  lemma {:induction false} GetPutExpressionsOther(meta: OMap<Value>, es: seq<(string, string)>, removable: bool, key: string)
    requires forall k :: 0 <= k < |es| ==> es[k].0 != key
    ensures Get(PutExpressions(meta, es, removable), key) == Get(meta, key)
    decreases |es|
  {
    if |es| > 0 {
      var m := Put(meta, es[0].0, Expression(es[0].1, removable));
      assert forall k :: 0 <= k < |es| - 1 ==> es[1..][k] == es[k + 1];
      GetPutExpressionsOther(m, es[1..], removable, key);
    }
  }

  /** After a run of puts, a key holds the value of its last put. */
  lemma {:induction false} GetPutExpressionsLast(meta: OMap<Value>, es: seq<(string, string)>, removable: bool, key: string, k: nat)
    requires k < |es| && es[k].0 == key && forall j :: k < j < |es| ==> es[j].0 != key
    ensures Get(PutExpressions(meta, es, removable), key) == Some(Expression(es[k].1, removable))
    decreases k
  {
    var m := Put(meta, es[0].0, Expression(es[0].1, removable));
    var t := es[1..];
    assert forall j :: 0 <= j < |t| ==> t[j] == es[j + 1];
    if k > 0 {
      GetPutExpressionsLast(m, t, removable, key, k - 1);
    } else {
      GetPutExpressionsOther(m, t, removable, key);
    }
  }

  /**
   * updateMetaItems on one record: every name of the new list holds its (last) expression,
   * marked removable; any other name keeps its entry unless that entry was a removable
   * expression, which is gone.
   */
  lemma UpdatedMetaSpec(meta: OMap<Value>, additional: seq<(string, string)>, key: string)
    requires DistinctKeys(meta)
    ensures DistinctKeys(UpdatedMeta(meta, additional))
    ensures (forall k :: 0 <= k < |additional| ==> additional[k].0 != key) ==>
              Get(UpdatedMeta(meta, additional), key) ==
              (if Get(meta, key).Some? && !IsRemovable(Get(meta, key).value) then Get(meta, key) else None)
    ensures forall k :: 0 <= k < |additional| && additional[k].0 == key &&
                        (forall j :: k < j < |additional| ==> additional[j].0 != key) ==>
              Get(UpdatedMeta(meta, additional), key) == Some(Expression(additional[k].1, true))
  {
    GetRemoveIf(meta, IsRemovable, key);
    if forall k :: 0 <= k < |additional| ==> additional[k].0 != key {
      GetPutExpressionsOther(RemoveIf(meta, IsRemovable), additional, true, key);
    }
    forall k | 0 <= k < |additional| && additional[k].0 == key && (forall j :: k < j < |additional| ==> additional[j].0 != key)
      ensures Get(UpdatedMeta(meta, additional), key) == Some(Expression(additional[k].1, true))
    {
      GetPutExpressionsLast(RemoveIf(meta, IsRemovable), additional, true, key, k);
    }
  }

  /**
   * updateMetaItems: every record of the set gets its meta map updated; nothing else of
   * the records changes. The records of a set are distinct objects.
   */
  method UpdateMetaItems(records: RecordSet, additional: seq<(string, string)>)
    requires forall i, j :: 0 <= i < j < |records.records| ==> records.records[i] != records.records[j]
    requires forall i :: 0 <= i < |records.records| ==> records.records[i].Valid()
    modifies set i | 0 <= i < |records.records| :: records.records[i]
    ensures records.records == old(records.records)
    ensures forall i :: 0 <= i < |records.records| ==>
              var r := records.records[i];
              r.Valid() && r.meta == UpdatedMeta(old(r.meta), additional) &&
              r.items == old(r.items) && r.inner == old(r.inner)
  {
    var rs := records.records;
    var i := 0;
    while i < |rs|
      invariant i <= |rs| && records.records == rs
      invariant forall k :: 0 <= k < |rs| ==>
                  rs[k].Valid() && rs[k].items == old(rs[k].items) && rs[k].inner == old(rs[k].inner) &&
                  rs[k].meta == if k < i then UpdatedMeta(old(rs[k].meta), additional) else old(rs[k].meta)
    {
      assert forall k :: 0 <= k < |rs| && k != i ==> rs[k] != rs[i];
      UpdateRecordMeta(rs[i], additional);
      i := i + 1;
    }
  }

  /** The body of the loop of updateMetaItems for one record: removeIf, then the puts. */
  method UpdateRecordMeta(rec: Record, additional: seq<(string, string)>)
    requires rec.Valid()
    modifies rec
    ensures rec.Valid()
    ensures rec.meta == UpdatedMeta(old(rec.meta), additional)
    ensures rec.items == old(rec.items) && rec.inner == old(rec.inner)
  {
    rec.RemoveMetaIf(IsRemovable);
    var k := 0;
    while k < |additional|
      invariant k <= |additional|
      invariant rec.Valid() && rec.items == old(rec.items) && rec.inner == old(rec.inner)
      invariant UpdatedMeta(old(rec.meta), additional) == PutExpressions(rec.meta, additional[k..], true)
    {
      assert additional[k..][1..] == additional[k + 1..];
      rec.PutMeta(additional[k].0, Expression(additional[k].1, true));
      k := k + 1;
    }
  }
}
