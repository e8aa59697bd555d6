/**
 * FileTypeConfiguration's data group compiler: one linear pass over the `item<N>` declarations
 * of a data group file, in key order, with a stack of (key, group) frames for if/elsif/else/endif
 * blocks, leaf declarations of the form `kind,arguments`, and on-demand compilation of the
 * group files a `group` declaration names, cached by name.
 */
module FileTypeConfigurations {
  import opened Wrappers
  import opened JavaLang
  import opened Validate
  import opened OrderedMaps
  import opened PropertiesFiles
  import opened Splitting
  import opened ItemDefinitions

  /** CSV_SEPARATOR: a comma outside double quotes. */
  const CsvSeparator: Separator := UnquotedComma

  const ElsifWithoutIf: string := "elsifに対応するifが見つかりません。"
  const ElseWithoutIf: string := "elseに対応するifが見つかりません。"
  const EndifWithoutIf: string := "endifに対応するifが見つかりません。"
  const EndifMissing: string := "if/elsifに対応するendifが見つかりません。"
  const Malformed: string := "形式が不正です。"
  const StringArity: string := "形式が不正です。項目タイプstringの場合、項目名・文字セット・項目長の指定が必要です。"
  const HexArity: string := "形式が不正です。項目タイプhexの場合、項目名・項目長の指定が必要です。"
  const MetaArity: string := "形式が不正です。項目タイプmetaの場合、項目名、項目値の算出式の指定が必要です。"
  const HiddenArity: string := "形式が不正です。項目タイプhiddenの場合、項目名、項目値の算出式の指定が必要です。"
  const UnknownKind: string := "形式が不正です。項目タイプはgroup,string,hex,meta,hiddenのいずれかを指定してください。"
  const NotFoundSuffix: string := ".properties が見つかりません。"
  const ValueMissing: string := "値が未設定です。"

  /** InvalidFileTypeConfigurationException(path, key, message). */
  function ConfigError(path: string, key: string, message: string): (e: Error)
    ensures e.InvalidConfiguration? && e.path == path && e.key == key && e.message == message
  {
    InvalidConfiguration(path, key, message)
  }

  // ---------------------------------------------------------------------------------------
  // Tokens and property lookups

  predicate IsQuoted(v: string) { |v| > 0 && v[0] == '"' && v[|v| - 1] == '"' }

  /**
   * get(array, index): the token trimmed and stripped of one pair of surrounding double
   * quotes; null past the end. A token that is a lone `"` both starts and ends with a
   * quote, and substring(1, 0) throws.
   */
  function GetToken(parts: seq<string>, index: nat): (r: Result<Option<string>>)
    ensures index >= |parts| ==> r == Ok(None)
    ensures index < |parts| && Trim(parts[index]) == "\"" ==> r == Err(IndexOutOfBounds)
    ensures index < |parts| && |Trim(parts[index])| >= 2 && IsQuoted(Trim(parts[index])) ==>
              r == Ok(Some(Trim(parts[index])[1..|Trim(parts[index])| - 1]))
    ensures index < |parts| && !IsQuoted(Trim(parts[index])) ==> r == Ok(Some(Trim(parts[index])))
    ensures index < |parts| && r.Ok? ==> r.value.Some?
  {
    if index < |parts| then
      var value := Trim(parts[index]);
      if IsQuoted(value) then
        if |value| < 2 then Err(IndexOutOfBounds) else Ok(Some(value[1..|value| - 1]))
      else Ok(Some(value))
    else Ok(None)
  }

  /** A token written in quotes reads back as the text between them, commas included. */
  lemma GetTokenOfQuoted(parts: seq<string>, index: nat, s: string)
    requires index < |parts| && parts[index] == "\"" + s + "\""
    ensures GetToken(parts, index) == Ok(Some(s))
  {
    var q := "\"" + s + "\"";
    assert q[0] == '"' && q[|q| - 1] == '"';
    assert Trim(q) == q;
    assert q[1..|q| - 1] == s;
  }

  /** A token is the trimmed text; surrounding blanks never survive get. */
  lemma GetTokenTrimmed(parts: seq<string>, index: nat)
    requires index < |parts| && GetToken(parts, index).Ok?
    requires !IsQuoted(Trim(parts[index]))
    ensures Trim(GetToken(parts, index).value.value) == GetToken(parts, index).value.value
  {
    TrimIdempotent(parts[index]);
  }

  /** getStringValue(path, properties, key): the value, or an error when it is absent or empty. */
  function GetStringValue(path: string, p: Properties, key: string): (r: Result<string>)
    ensures r.Ok? <==> HasKey(p, key) && Get(p, key).value != ""
    ensures r.Ok? ==> r.value == Get(p, key).value
    ensures r.Err? ==> r.error == ConfigError(path, key, ValueMissing)
  {
    match GetProperty(p, key)
    case None => Err(ConfigError(path, key, ValueMissing))
    case Some(v) => if v == "" then Err(ConfigError(path, key, ValueMissing)) else Ok(v)
  }

  /** The declaration keys `(?<group>item\d+)(?<name>)` accepts: "item" and at least one digit. */
  predicate IsItemKey(key: string) {
    |key| > 4 && key[..4] == "item" && AllDigits(key[4..])
  }

  /** Declarations are taken in the text order of their keys, so item10 comes before item2. */
  lemma ItemKeysInTextOrder(a: string, b: string)
    ensures GetValues([("item2", a), ("item10", b)], IsItemKey) == [("item10", b), ("item2", a)]
  {
    assert "item2"[..4] == "item" && "item2"[4..] == "2";
    assert "item10"[..4] == "item" && "item10"[4..] == "10";
    assert IsItemKey("item2") && IsItemKey("item10");
    TextualKeyOrder(a, b, IsItemKey);
  }

  /**
   * The dump layouts a file type lists: each comma-separated name, trimmed, looked up among
   * the compiled groups; a name with no compiled group yields null in its place.
   */
  function ResolveDumpLayouts(groups: OMap<Node>, dumpLayouts: Option<string>): (r: seq<Option<Node>>)
    ensures dumpLayouts.None? ==> r == []
    ensures dumpLayouts.Some? ==> |r| == |Split(CsvSeparator, dumpLayouts.value)|
    ensures dumpLayouts.Some? ==> forall i :: 0 <= i < |r| ==>
              r[i] == Get(groups, Trim(Split(CsvSeparator, dumpLayouts.value)[i]))
  {
    match dumpLayouts
    case None => []
    case Some(s) =>
      var names := Split(CsvSeparator, s);
      seq(|names|, i requires 0 <= i < |names| => Get(groups, Trim(names[i])))
  }

  // ---------------------------------------------------------------------------------------
  // Declarations

  /**
   * `value.matches("^kw\\b.*")`: the keyword, a word boundary after it (the end, or a
   * character outside [a-zA-Z0-9_]), and then anything up to the end without a line terminator.
   */
  predicate KeywordLine(value: string, keyword: string) {
    |keyword| <= |value| && value[..|keyword|] == keyword
    && (|value| == |keyword| || !IsWordChar(value[|keyword|]))
    && forall i :: |keyword| <= i < |value| ==> !IsLineTerminator(value[i])
  }

  datatype Declaration = IfDecl(condition: string) | ElsifDecl(condition: string) | ElseDecl | EndifDecl | LeafDecl

  /** At most one of the four keywords can open a declaration. */
  lemma KeywordsExclusive(value: string)
    ensures KeywordLine(value, "if") ==> !KeywordLine(value, "elsif") && !KeywordLine(value, "else") && !KeywordLine(value, "endif")
    ensures KeywordLine(value, "elsif") ==> !KeywordLine(value, "else") && !KeywordLine(value, "endif")
    ensures KeywordLine(value, "else") ==> !KeywordLine(value, "endif")
  {
    if KeywordLine(value, "if") {
      assert value[0] == value[..2][0] == 'i';
    }
    if KeywordLine(value, "elsif") {
      assert value[3] == value[..5][3] == 'i';
      assert value[1] == value[..5][1] == 'l';
    }
    if KeywordLine(value, "else") {
      assert value[1] == value[..4][1] == 'l';
    }
  }

  /** Which branch of the compiler's if-chain a declaration value takes, with the condition text. */
  function Classify(value: string): (d: Declaration)
    ensures d.IfDecl? <==> KeywordLine(value, "if")
    ensures d.ElsifDecl? <==> KeywordLine(value, "elsif")
    ensures d.ElseDecl? <==> KeywordLine(value, "else")
    ensures d.EndifDecl? <==> KeywordLine(value, "endif")
    ensures d.IfDecl? ==> d.condition == value[2..]
    ensures d.ElsifDecl? ==> d.condition == value[5..]
  {
    KeywordsExclusive(value);
    if KeywordLine(value, "if") then IfDecl(value[2..])
    else if KeywordLine(value, "elsif") then ElsifDecl(value[5..])
    else if KeywordLine(value, "else") then ElseDecl
    else if KeywordLine(value, "endif") then EndifDecl
    else LeafDecl
  }

  /** What a leaf declaration adds to the current group: compiled groups by name, or one definition. */
  datatype Leaf = GroupRefs(names: seq<string>) | Definition(node: Node)

  /** The names a `group` declaration lists: each comma-separated part, trimmed (no quote stripping). */
  function GroupNames(arguments: string): (names: seq<string>)
    ensures |names| == |Split(CsvSeparator, arguments)|
    ensures forall i :: 0 <= i < |names| ==> names[i] == Trim(Split(CsvSeparator, arguments)[i])
  {
    var parts := Split(CsvSeparator, arguments);
    seq(|parts|, i requires 0 <= i < |parts| => Trim(parts[i]))
  }

  /** The kind token of a declaration: the trimmed, unquoted text before its first unquoted comma. */
  function KindOf(value: string): Result<Option<string>> {
    GetToken(Split2(CsvSeparator, value), 0)
  }

  /**
   * `string,name,charset,length[,value]`: at least three arguments; the tokens are read, then
   * the charset is looked up, then the length is classified.
   */
  function StringItemOf(path: string, key: string, arguments: string, charsetSupported: string -> bool): (r: Result<Node>)
    ensures |Split(CsvSeparator, arguments)| < 3 ==> r == Err(ConfigError(path, key, StringArity))
    ensures r.Ok? ==> r.value.StringItem? && |Split(CsvSeparator, arguments)| >= 3
    ensures r.Ok? ==> Ok(Some(r.value.name)) == GetToken(Split(CsvSeparator, arguments), 0)
    ensures r.Ok? ==> Ok(Some(r.value.charset)) == GetToken(Split(CsvSeparator, arguments), 1) && charsetSupported(r.value.charset)
    ensures r.Ok? ==> Ok(r.value.valueExpression) == GetToken(Split(CsvSeparator, arguments), 3)
    ensures r.Ok? ==> (r.value.valueExpression.None? <==> |Split(CsvSeparator, arguments)| == 3)
    ensures r.Ok? ==> var t := GetToken(Split(CsvSeparator, arguments), 2);
              t.Ok? && t.value.Some? && ClassifyLength(t.value.value) == Ok(r.value.length)
  {
    var tmp := Split(CsvSeparator, arguments);
    var arity := IsTrue(|tmp| >= 3, ConfigError(path, key, StringArity));
    if arity.Fail? then Err(arity.error)
    else
      var name :- GetToken(tmp, 0);
      var charset :- GetToken(tmp, 1);
      var lengthExpression :- GetToken(tmp, 2);
      var valueExpression :- GetToken(tmp, 3);
      if !charsetSupported(charset.value) then Err(UnsupportedCharset(charset.value))
      else
        var length :- ClassifyLength(lengthExpression.value);
        Ok(StringItem(name.value, length, charset.value, valueExpression))
  }

  /** `hex,name,length[,value]`: at least two arguments. */
  function HexItemOf(path: string, key: string, arguments: string): (r: Result<Node>)
    ensures |Split(CsvSeparator, arguments)| < 2 ==> r == Err(ConfigError(path, key, HexArity))
    ensures r.Ok? ==> r.value.HexItem? && |Split(CsvSeparator, arguments)| >= 2
    ensures r.Ok? ==> Ok(Some(r.value.name)) == GetToken(Split(CsvSeparator, arguments), 0)
    ensures r.Ok? ==> Ok(r.value.valueExpression) == GetToken(Split(CsvSeparator, arguments), 2)
    ensures r.Ok? ==> (r.value.valueExpression.None? <==> |Split(CsvSeparator, arguments)| == 2)
    ensures r.Ok? ==> var t := GetToken(Split(CsvSeparator, arguments), 1);
              t.Ok? && t.value.Some? && ClassifyLength(t.value.value) == Ok(r.value.length)
  {
    var tmp := Split(CsvSeparator, arguments);
    var arity := IsTrue(|tmp| >= 2, ConfigError(path, key, HexArity));
    if arity.Fail? then Err(arity.error)
    else
      var name :- GetToken(tmp, 0);
      var lengthExpression :- GetToken(tmp, 1);
      var valueExpression :- GetToken(tmp, 2);
      var length :- ClassifyLength(lengthExpression.value);
      Ok(HexItem(name.value, length, valueExpression))
  }

  /** `meta,name,expression` and `hidden,name,expression`: exactly two arguments. */
  function NamedExpressionOf(path: string, key: string, arguments: string, hidden: bool): (r: Result<Node>)
    ensures |Split(CsvSeparator, arguments)| != 2 ==> r == Err(ConfigError(path, key, if hidden then HiddenArity else MetaArity))
    ensures r.Ok? ==> |Split(CsvSeparator, arguments)| == 2 && (if hidden then r.value.Hidden? else r.value.Meta?)
    ensures r.Ok? ==> Ok(Some(r.value.name)) == GetToken(Split(CsvSeparator, arguments), 0)
    ensures r.Ok? ==> Ok(Some(r.value.expression)) == GetToken(Split(CsvSeparator, arguments), 1)
  {
    var tmp := Split(CsvSeparator, arguments);
    var arity := IsTrue(|tmp| == 2, ConfigError(path, key, if hidden then HiddenArity else MetaArity));
    if arity.Fail? then Err(arity.error)
    else
      var name :- GetToken(tmp, 0);
      var expression :- GetToken(tmp, 1);
      if hidden then Ok(Hidden(name.value, expression.value)) else Ok(Meta(name.value, expression.value))
  }

  /**
   * A leaf declaration: split at the first unquoted comma into a kind and its arguments
   * (the kind token is read before the arity is checked), then dispatched on the kind.
   */
  function ParseLeaf(path: string, key: string, value: string, charsetSupported: string -> bool): (r: Result<Leaf>)
    ensures KindOf(value).Ok? && |Split2(CsvSeparator, value)| == 1 ==> r == Err(ConfigError(path, key, Malformed))
    ensures r.Ok? ==> KindOf(value).Ok? && |Split2(CsvSeparator, value)| == 2
    ensures r.Ok? && r.value.GroupRefs? ==>
              Trim(KindOf(value).value.value) == "group" && r.value.names == GroupNames(Split2(CsvSeparator, value)[1])
    ensures r.Ok? && r.value.Definition? ==> !r.value.node.Group?
    ensures r.Ok? && r.value.Definition? && r.value.node.StringItem? ==> KindOf(value).value.value == "string"
    ensures r.Ok? && r.value.Definition? && r.value.node.HexItem? ==> KindOf(value).value.value == "hex"
    ensures r.Ok? && r.value.Definition? && r.value.node.Meta? ==> KindOf(value).value.value == "meta"
    ensures r.Ok? && r.value.Definition? && r.value.node.Hidden? ==> KindOf(value).value.value == "hidden"
    ensures KindOf(value).Ok? && |Split2(CsvSeparator, value)| == 2 && Trim(KindOf(value).value.value) != "group"
            && KindOf(value).value.value !in ["string", "hex", "meta", "hidden"] ==>
              r == Err(ConfigError(path, key, UnknownKind))
  {
    var values := Split2(CsvSeparator, value);
    var kind :- GetToken(values, 0);
    var t := kind.value;
    var paired := IsTrue(|values| == 2, ConfigError(path, key, Malformed));
    if paired.Fail? then Err(paired.error)
    else if Trim(t) == "group" then Ok(GroupRefs(GroupNames(values[1])))
    else if t == "string" then
      var node :- StringItemOf(path, key, values[1], charsetSupported);
      Ok(Definition(node))
    else if t == "hex" then
      var node :- HexItemOf(path, key, values[1]);
      Ok(Definition(node))
    else if t == "meta" then
      var node :- NamedExpressionOf(path, key, values[1], false);
      Ok(Definition(node))
    else if t == "hidden" then
      var node :- NamedExpressionOf(path, key, values[1], true);
      Ok(Definition(node))
    else Err(ConfigError(path, key, UnknownKind))
  }

  // ---------------------------------------------------------------------------------------
  // The frame stack

  /** A Pair of the compiler's stack: the key that opened the frame and the group being filled. */
  datatype Frame = Frame(key: string, group: Node)

  function Top(stack: seq<Frame>): Frame
    requires |stack| > 0
  {
    stack[|stack| - 1]
  }

  /**
   * The shape the compiler keeps: the root frame at the bottom is the only frame without a
   * condition type, every frame holds a group whose chain of children is well formed, and an
   * ELSIF/ELSE frame sits on a frame whose last child is the conditional group it continues.
   */
  predicate StackShape(stack: seq<Frame>) {
    |stack| >= 1
    && (forall j :: 0 <= j < |stack| ==> stack[j].group.Group? && ChildrenWellFormed(stack[j].group))
    && stack[0].group.conditionType.None?
    && (forall j :: 0 < j < |stack| ==> stack[j].group.conditionType.Some?)
    && (forall j :: 0 < j < |stack| && stack[j].group.IsContinuation() ==>
          |stack[j - 1].group.children| > 0 && stack[j - 1].group.children[|stack[j - 1].group.children| - 1].IsConditional())
  }

  /** The root frame a compilation starts from: no key, the file's name and condition, no condition type. */
  predicate IsRoot(f: Frame, name: string, condition: Option<string>) {
    f.key == "" && f.group.Group? && f.group.name == name && f.group.condition == condition && f.group.conditionType.None?
  }

  /** `stack.getLast().itemDefinition.getChildren().add(c)`. */
  function AppendToTop(stack: seq<Frame>, c: Node): (r: seq<Frame>)
    requires |stack| > 0 && Top(stack).group.Group?
    ensures |r| == |stack| && r[..|r| - 1] == stack[..|stack| - 1]
    ensures Top(r) == Frame(Top(stack).key, AppendChild(Top(stack).group, c))
  {
    stack[..|stack| - 1] + [Frame(Top(stack).key, AppendChild(Top(stack).group, c))]
  }

  /** The pop-and-append step of elsif, else and endif: the top group becomes the last child of the frame below. */
  function PopAppend(stack: seq<Frame>): (r: seq<Frame>)
    requires |stack| >= 2 && stack[|stack| - 2].group.Group?
    ensures |r| == |stack| - 1 && r[..|r| - 1] == stack[..|stack| - 2]
    ensures Top(r) == Frame(stack[|stack| - 2].key, AppendChild(stack[|stack| - 2].group, Top(stack).group))
  {
    AppendToTop(stack[..|stack| - 1], Top(stack).group)
  }

  /** The message for an elsif, else or endif that finds no open if. */
  function UnmatchedMessage(d: Declaration): string {
    match d
    case ElsifDecl(_) => ElsifWithoutIf
    case ElseDecl => ElseWithoutIf
    case _ => EndifWithoutIf
  }

  /**
   * One control declaration. if pushes an IF frame whose condition is the text after "if";
   * elsif and else pop the top frame into the one below and push an ELSIF frame (condition:
   * the text after "elsif") or an ELSE frame (no condition); endif only pops. A pop is refused,
   * naming the key, exactly when the top frame has no condition type, that is when only the
   * root is left: the root is never popped.
   */
  function ControlStep(path: string, stack: seq<Frame>, key: string, d: Declaration): (r: Result<seq<Frame>>)
    requires StackShape(stack) && !d.LeafDecl?
    ensures d.IfDecl? ==> r == Ok(stack + [Frame(key, Group("", [], Some(d.condition), Some(If)))])
    ensures !d.IfDecl? ==> (r.Err? <==> |stack| == 1)
    ensures r.Err? ==> r.error == ConfigError(path, key, UnmatchedMessage(d))
    ensures d.ElsifDecl? && r.Ok? ==> r.value == PopAppend(stack) + [Frame(key, Group("", [], Some(d.condition), Some(Elsif)))]
    ensures d.ElseDecl? && r.Ok? ==> r.value == PopAppend(stack) + [Frame(key, Group("", [], None, Some(Else)))]
    ensures d.EndifDecl? && r.Ok? ==> r.value == PopAppend(stack)
  {
    if d.IfDecl? then Ok(stack + [Frame(key, Group("", [], Some(d.condition), Some(If)))])
    else
      var open := NotNull(Top(stack).group.conditionType, ConfigError(path, key, UnmatchedMessage(d)));
      if open.Fail? then Err(open.error)
      else
        var popped := PopAppend(stack);
        match d
        case ElsifDecl(c) => Ok(popped + [Frame(key, Group("", [], Some(c), Some(Elsif)))])
        case ElseDecl => Ok(popped + [Frame(key, Group("", [], None, Some(Else)))])
        case EndifDecl => Ok(popped)
  }

  /** The pop-and-append step keeps the stack's shape and its root. */
  lemma PopAppendKeepsShape(stack: seq<Frame>)
    requires StackShape(stack) && |stack| >= 2
    ensures StackShape(PopAppend(stack))
    ensures PopAppend(stack)[0].key == stack[0].key
    ensures PopAppend(stack)[0].group.name == stack[0].group.name
    ensures PopAppend(stack)[0].group.condition == stack[0].group.condition
  {
    var below := stack[..|stack| - 1];
    var g := Top(stack).group;
    assert StackShape(below) by {
      forall j | 0 <= j < |below|
        ensures below[j] == stack[j]
      {
      }
    }
    assert WellFormed(g);
    assert g.IsContinuation() ==>
      |Top(below).group.children| > 0 && Top(below).group.children[|Top(below).group.children| - 1].IsConditional() by {
      assert Top(below) == stack[|stack| - 2];
    }
    AppendToTopKeepsShape(below, g);
  }

  /**
   * Appending a well-formed child to the top frame keeps the stack's shape and its root,
   * provided a continuation lands right after a conditional group.
   */
  lemma AppendToTopKeepsShape(stack: seq<Frame>, c: Node)
    requires StackShape(stack) && WellFormed(c)
    requires c.IsContinuation() ==>
      |Top(stack).group.children| > 0 && Top(stack).group.children[|Top(stack).group.children| - 1].IsConditional()
    ensures StackShape(AppendToTop(stack, c))
    ensures AppendToTop(stack, c)[0].key == stack[0].key
    ensures AppendToTop(stack, c)[0].group.name == stack[0].group.name
    ensures AppendToTop(stack, c)[0].group.condition == stack[0].group.condition
  {
    var n := |stack|;
    var t := Top(stack).group;
    var top := AppendChild(t, c);
    AppendKeepsChain(t.children, c);
    var r := AppendToTop(stack, c);
    assert ChildrenWellFormed(top) by {
      var cs := top.children;
      forall i | 0 <= i < |cs|
        ensures WellFormed(cs[i])
      {
        if i < |t.children| {
          assert cs[i] == t.children[i];
        }
      }
    }
    forall j | 0 <= j < n - 1
      ensures r[j] == stack[j]
    {
      assert r[j] == r[..n - 1][j];
    }
    assert r[n - 1] == Frame(stack[n - 1].key, top);
    forall j | 0 <= j < n
      ensures r[j].group.Group? && ChildrenWellFormed(r[j].group)
    {
    }
    forall j | 0 < j < n
      ensures r[j].group.conditionType.Some?
    {
    }
    forall j | 0 < j < n && r[j].group.IsContinuation()
      ensures |r[j - 1].group.children| > 0 && r[j - 1].group.children[|r[j - 1].group.children| - 1].IsConditional()
    {
      assert r[j - 1] == stack[j - 1];
      assert stack[j].group.IsContinuation();
    }
    if n == 1 {
      assert r[0] == Frame(stack[0].key, top);
    } else {
      assert r[0] == stack[0];
    }
  }

  /**
   * Pushing a fresh IF/ELSIF/ELSE frame keeps the stack's shape and its root, provided an
   * ELSIF/ELSE frame lands on a frame whose last child is conditional.
   */
  lemma PushKeepsShape(stack: seq<Frame>, f: Frame)
    requires StackShape(stack) && f.group.Group? && f.group.children == [] && f.group.conditionType.Some?
    requires f.group.IsContinuation() ==>
      |Top(stack).group.children| > 0 && Top(stack).group.children[|Top(stack).group.children| - 1].IsConditional()
    ensures StackShape(stack + [f])
    ensures (stack + [f])[0] == stack[0]
  {
    var r := stack + [f];
    assert ChildrenWellFormed(f.group);
    forall j | 0 <= j < |stack|
      ensures r[j] == stack[j]
    {
    }
  }

  /** A successful control step keeps the stack's shape and leaves the root's identity alone. */
  lemma ControlStepKeepsShape(path: string, stack: seq<Frame>, key: string, d: Declaration)
    requires StackShape(stack) && !d.LeafDecl? && ControlStep(path, stack, key, d).Ok?
    ensures StackShape(ControlStep(path, stack, key, d).value)
    ensures ControlStep(path, stack, key, d).value[0].key == stack[0].key
    ensures ControlStep(path, stack, key, d).value[0].group.name == stack[0].group.name
    ensures ControlStep(path, stack, key, d).value[0].group.condition == stack[0].group.condition
  {
    match d
    case IfDecl(c) =>
      PushKeepsShape(stack, Frame(key, Group("", [], Some(c), Some(If))));
    case EndifDecl =>
      PopAppendKeepsShape(stack);
    case ElsifDecl(c) =>
      PopAppendKeepsShape(stack);
      PushKeepsShape(PopAppend(stack), Frame(key, Group("", [], Some(c), Some(Elsif))));
    case ElseDecl =>
      PopAppendKeepsShape(stack);
      PushKeepsShape(PopAppend(stack), Frame(key, Group("", [], None, Some(Else))));
  }

  /**
   * The closing check: the compilation yields the root group exactly when only the root
   * frame is left; otherwise the error names the key of the innermost block still open.
   */
  function Finish(path: string, stack: seq<Frame>): (r: Result<Node>)
    requires |stack| >= 1
    ensures r.Ok? <==> |stack| == 1
    ensures r.Ok? ==> r.value == stack[0].group
    ensures r.Err? ==> r.error == ConfigError(path, Top(stack).key, EndifMissing)
  {
    var closed := IsTrue(|stack| == 1, ConfigError(path, Top(stack).key, EndifMissing));
    if closed.Fail? then Err(closed.error) else Ok(stack[0].group)
  }

  /** What the cache holds: root groups (no condition type) whose whole tree is well formed. */
  predicate CompiledGroup(n: Node) {
    n.Group? && n.conditionType.None? && WellFormed(n)
  }

  /** One data group file: where it was found and its loaded properties. */
  datatype GroupFile = GroupFile(path: string, properties: Properties)

  /** A group name that needs no quoting or trimming: non-empty, no blank, comma or double quote. */
  predicate PlainName(n: string) {
    |n| > 0 && forall i :: 0 <= i < |n| ==> n[i] > ' ' && n[i] != ',' && n[i] != '"'
  }

  /** The name a declaration `group,<name>` includes, for a plain name. */
  function IncludedName(value: string): (r: Option<string>)
    ensures r.Some? ==> PlainName(r.value) && value == "group," + r.value
  {
    if |value| > 6 && value[..6] == "group," && PlainName(value[6..]) then
      assert value == value[..6] + value[6..];
      Some(value[6..])
    else None
  }

  /** The file's first declaration, in key order, is `group,<name>`. */
  predicate IncludesFirst(file: GroupFile, name: string) {
    var decls := GetValues(file.properties, IsItemKey);
    |decls| > 0 && IncludedName(decls[0].1) == Some(name)
  }

  lemma {:induction false} NoSeparator(sep: Separator, s: string, i: nat)
    requires i <= |s| && forall j :: 0 <= j < |s| ==> s[j] != ','
    ensures FirstSep(sep, s, i) == |s|
    decreases |s| - i
  {
    if i < |s| {
      NoSeparator(sep, s, i + 1);
    }
  }

  /** `group,<name>` is a leaf declaration that includes exactly the named group. */
  lemma GroupDeclaration(path: string, key: string, name: string, charsetSupported: string -> bool)
    requires PlainName(name)
    ensures Classify("group," + name).LeafDecl?
    ensures ParseLeaf(path, key, "group," + name, charsetSupported) == Ok(GroupRefs([name]))
  {
    var s := "group," + name;
    assert s[0] == 'g' && s[..2][0] == 'g' && s[..4][0] == 'g' && s[..5][0] == 'g';
    assert s[6..] == name;
    NoQuotesCount(name);
    assert SepAt(CsvSeparator, s, 5);
    assert FirstSep(CsvSeparator, s, 0) == 5 by {
      assert !SepAt(CsvSeparator, s, 0) && !SepAt(CsvSeparator, s, 1) && !SepAt(CsvSeparator, s, 2);
      assert !SepAt(CsvSeparator, s, 3) && !SepAt(CsvSeparator, s, 4);
      assert FirstSep(CsvSeparator, s, 5) == 5;
    }
    assert s[..5] == "group";
    assert Split2(CsvSeparator, s) == ["group", name];
    assert Trim("group") == "group";
    assert GetToken(["group", name], 0) == Ok(Some("group"));
    NoSeparator(CsvSeparator, name, 0);
    assert Split(CsvSeparator, name) == [name];
    assert Trim(name) == name;
    assert GroupNames(name) == [name];
  }

  // ---------------------------------------------------------------------------------------
  // The pass over one file, as a function of the compiled groups

  /** Every cached entry is a compiled group. */
  predicate CacheCompiled(m: OMap<Node>) {
    forall i :: 0 <= i < |m| ==> CompiledGroup(m[i].1)
  }

  /** Entries of m are still in m', unchanged. */
  ghost predicate Keeps(m: OMap<Node>, m': OMap<Node>) {
    forall k :: HasKey(m, k) ==> Get(m', k) == Get(m, k)
  }

  /** Two stacks whose root frames agree on key, group name and condition. */
  predicate SameRoot(a: seq<Frame>, b: seq<Frame>)
    requires |a| > 0 && |b| > 0
  {
    a[0].key == b[0].key && a[0].group.Group? && b[0].group.Group? && a[0].group.name == b[0].group.name && a[0].group.condition == b[0].group.condition
  }

  /** The root frame of a file: no key, the file's `name` (default "") and `condition` (default null). */
  function RootFrame(file: GroupFile): (f: Frame)
    ensures IsRoot(f, GetPropertyOr(file.properties, "name", Some("")).value, GetPropertyOr(file.properties, "condition", None))
    ensures StackShape([f])
  {
    Frame("", Group(GetPropertyOr(file.properties, "name", Some("")).value, [], GetPropertyOr(file.properties, "condition", None), None))
  }

  /** The declarations of a file, in key order. */
  function Declarations(file: GroupFile): seq<(string, string)> {
    GetValues(file.properties, IsItemKey)
  }

  /** A declaration `group,<names>` that parses: it compiles the files it names. */
  predicate IncludesGroups(path: string, key: string, value: string, charsetSupported: string -> bool) {
    Classify(value).LeafDecl? && ParseLeaf(path, key, value, charsetSupported).Ok?
    && ParseLeaf(path, key, value, charsetSupported).value.GroupRefs?
  }

  /**
   * Where a pass stands: the frame stack after the declarations so far, the error of a
   * refused declaration, or Blocked: a `group` declaration whose groups are not all compiled
   * (or a stack out of shape, which the compiler never builds).
   */
  datatype Compilation = Compiled(stack: seq<Frame>) | Refused(error: Error) | Blocked

  /** The cached groups of the names are compiled groups. */
  lemma ResolvedCompiled(m: OMap<Node>, names: seq<string>)
    requires CacheCompiled(m) && forall k :: 0 <= k < |names| ==> HasKey(m, names[k])
    ensures forall k :: 0 <= k < |names| ==> CompiledGroup(Resolved(m, names)[k])
  {
    forall k | 0 <= k < |names|
      ensures CompiledGroup(Resolved(m, names)[k])
    {
      CompiledOfGet(m, names[k]);
    }
  }

  /**
   * One declaration against the compiled groups `cache`: a control keyword is ControlStep;
   * a definition is appended to the current group; a `group` declaration appends the cached
   * groups of its names in order, and is Blocked when one of them is not compiled.
   */
  function DeclStep(path: string, stack: seq<Frame>, key: string, value: string, cache: OMap<Node>,
                    charsetSupported: string -> bool): (c: Compilation)
    ensures c.Blocked? ==> !StackShape(stack) || IncludesGroups(path, key, value, charsetSupported)
  {
    if !StackShape(stack) then Blocked
    else
      var d := Classify(value);
      if !d.LeafDecl? then
        match ControlStep(path, stack, key, d)
        case Ok(next) => Compiled(next)
        case Err(e) => Refused(e)
      else
        match ParseLeaf(path, key, value, charsetSupported)
        case Err(e) => Refused(e)
        case Ok(Definition(node)) => Compiled(AppendToTop(stack, node))
        case Ok(GroupRefs(names)) =>
          if forall k :: 0 <= k < |names| ==> HasKey(cache, names[k]) then
            Compiled(AppendAllToTop(stack, Resolved(cache, names)))
          else Blocked
  }

  /** A declaration that compiles keeps the stack's shape and its root. */
  lemma DeclStepShape(path: string, stack: seq<Frame>, key: string, value: string, cache: OMap<Node>,
                      charsetSupported: string -> bool)
    requires StackShape(stack) && CacheCompiled(cache)
    ensures var c := DeclStep(path, stack, key, value, cache, charsetSupported);
            c.Compiled? ==> StackShape(c.stack) && SameRoot(c.stack, stack)
  {
    var d := Classify(value);
    if !d.LeafDecl? {
      if ControlStep(path, stack, key, d).Ok? {
        ControlStepKeepsShape(path, stack, key, d);
      }
    } else if ParseLeaf(path, key, value, charsetSupported).Ok? {
      match ParseLeaf(path, key, value, charsetSupported).value
      case Definition(node) =>
        AppendToTopKeepsShape(stack, node);
      case GroupRefs(names) =>
        if forall k :: 0 <= k < |names| ==> HasKey(cache, names[k]) {
          ResolvedCompiled(cache, names);
          AppendAllKeepsShape(stack, Resolved(cache, names));
          AppendAllToTopRoot(stack, Resolved(cache, names));
        }
    }
  }

  /** The steps of a pass over one file's declarations, against the compiled groups `cache`. */
  function Stepper(path: string, cache: OMap<Node>, charsetSupported: string -> bool): (seq<Frame>, (string, string)) -> Compilation {
    (stack: seq<Frame>, d: (string, string)) => DeclStep(path, stack, d.0, d.1, cache, charsetSupported)
  }

  /** The declarations in turn from stack, stopping at the first that does not compile. */
  function Run(decls: seq<(string, string)>, stack: seq<Frame>, step: (seq<Frame>, (string, string)) -> Compilation): (c: Compilation)
    ensures |decls| == 0 ==> c == Compiled(stack)
    decreases |decls|
  {
    if |decls| == 0 then Compiled(stack)
    else
      match step(stack, decls[0])
      case Compiled(next) => Run(decls[1..], next, step)
      case stopped => stopped
  }

  /** The pass over one more declaration is the pass so far followed by that declaration's step. */
  lemma {:induction false} RunSnoc(decls: seq<(string, string)>, stack: seq<Frame>, step: (seq<Frame>, (string, string)) -> Compilation,
                                   next: (string, string))
    requires Run(decls, stack, step).Compiled?
    ensures Run(decls + [next], stack, step) == step(Run(decls, stack, step).stack, next)
    decreases |decls|
  {
    if |decls| == 0 {
      assert ([] + [next])[1..] == [];
      assert ([] + [next])[0] == next;
    } else {
      assert (decls + [next])[0] == decls[0];
      assert (decls + [next])[1..] == decls[1..] + [next];
      RunSnoc(decls[1..], step(stack, decls[0]).stack, step, next);
    }
  }

  /** A pass that is not Blocked runs the same with a step that agrees wherever the first is not Blocked. */
  lemma {:induction false} RunKeep(decls: seq<(string, string)>, stack: seq<Frame>,
                                   step: (seq<Frame>, (string, string)) -> Compilation, step': (seq<Frame>, (string, string)) -> Compilation)
    requires forall s, d :: !step(s, d).Blocked? ==> step'(s, d) == step(s, d)
    requires !Run(decls, stack, step).Blocked?
    ensures Run(decls, stack, step') == Run(decls, stack, step)
    decreases |decls|
  {
    if |decls| > 0 && step(stack, decls[0]).Compiled? {
      RunKeep(decls[1..], step(stack, decls[0]).stack, step, step');
    }
  }

  /** A declaration that is not Blocked steps the same against any cache that keeps its entries. */
  lemma DeclStepKeep(path: string, stack: seq<Frame>, key: string, value: string, m: OMap<Node>, m': OMap<Node>,
                     charsetSupported: string -> bool)
    requires Keeps(m, m')
    requires !DeclStep(path, stack, key, value, m, charsetSupported).Blocked?
    ensures DeclStep(path, stack, key, value, m', charsetSupported) == DeclStep(path, stack, key, value, m, charsetSupported)
  {
    if IncludesGroups(path, key, value, charsetSupported) {
      var names := ParseLeaf(path, key, value, charsetSupported).value.names;
      assert forall k :: 0 <= k < |names| ==> HasKey(m, names[k]);
      forall k | 0 <= k < |names|
        ensures HasKey(m', names[k]) && Get(m', names[k]) == Get(m, names[k])
      {
      }
      assert Resolved(m', names) == Resolved(m, names);
    }
  }

  /** The compiler's steps agree against every cache that keeps the entries of the one they were taken against. */
  lemma StepperKeep(path: string, m: OMap<Node>, m': OMap<Node>, charsetSupported: string -> bool)
    requires Keeps(m, m')
    ensures forall s, d :: !Stepper(path, m, charsetSupported)(s, d).Blocked? ==>
              Stepper(path, m', charsetSupported)(s, d) == Stepper(path, m, charsetSupported)(s, d)
  {
    forall s, d | !Stepper(path, m, charsetSupported)(s, d).Blocked?
      ensures Stepper(path, m', charsetSupported)(s, d) == Stepper(path, m, charsetSupported)(s, d)
    {
      DeclStepKeep(path, s, d.0, d.1, m, m', charsetSupported);
    }
  }

  /** What a file compiles to against the compiled groups: the pass from its root frame, then the closing check. */
  predicate CompilesTo(file: GroupFile, cache: OMap<Node>, charsetSupported: string -> bool, g: Node) {
    var c := Run(Declarations(file), [RootFrame(file)], Stepper(file.path, cache, charsetSupported));
    c.Compiled? && |c.stack| >= 1 && Finish(file.path, c.stack) == Ok(g)
  }

  /**
   * How a pass over decls from root ended after stop declarations, with result r: all
   * declarations compiled and r is the closing check; or the declarations before stop
   * compiled, and declaration stop was refused with r's error or is a `group` declaration
   * whose groups failed to load.
   */
  predicate PassEnded(path: string, decls: seq<(string, string)>, root: seq<Frame>, cache: OMap<Node>,
                      charsetSupported: string -> bool, stop: nat, r: Result<Node>) {
    var step := Stepper(path, cache, charsetSupported);
    stop <= |decls| && Run(decls[..stop], root, step).Compiled?
    && (stop == |decls| ==> |Run(decls[..stop], root, step).stack| >= 1 && r == Finish(path, Run(decls[..stop], root, step).stack))
    && (stop < |decls| ==>
          r.Err? &&
          (IncludesGroups(path, decls[stop].0, decls[stop].1, charsetSupported) ||
           Run(decls[..stop + 1], root, step) == Refused(r.error)))
  }

  /**
   * One declaration further: a pass compiled so far against m compiles the same against a
   * cache m' that keeps m's entries, and one declaration more is that declaration's step.
   */
  lemma PrefixStep(path: string, decls: seq<(string, string)>, root: seq<Frame>, i: nat, m: OMap<Node>, m': OMap<Node>,
                   charsetSupported: string -> bool, stack: seq<Frame>)
    requires i < |decls| && Keeps(m, m')
    requires Run(decls[..i], root, Stepper(path, m, charsetSupported)) == Compiled(stack)
    ensures Run(decls[..i], root, Stepper(path, m', charsetSupported)) == Compiled(stack)
    ensures Run(decls[..i + 1], root, Stepper(path, m', charsetSupported)) == DeclStep(path, stack, decls[i].0, decls[i].1, m', charsetSupported)
  {
    StepperKeep(path, m, m', charsetSupported);
    RunKeep(decls[..i], root, Stepper(path, m, charsetSupported), Stepper(path, m', charsetSupported));
    RunSnoc(decls[..i], root, Stepper(path, m', charsetSupported), decls[i]);
    SnocSlice(decls, i);
  }

  /** A prefix one element longer. */
  lemma SnocSlice<T>(s: seq<T>, i: nat)
    requires i < |s|
    ensures s[..i] + [s[i]] == s[..i + 1]
  {
  }

  /**
   * The compiler's state: the data group files it can find, by name (the directory search
   * for `<name>.properties`), and dataGroupDefinitionMap, the compiled groups by name.
   */
  class FileTypeConfiguration {
    const groupFiles: map<string, GroupFile>
    const charsetSupported: string -> bool
    var dataGroupDefinitionMap: OMap<Node>

    ghost predicate Valid()
      reads this
    {
      DistinctKeys(dataGroupDefinitionMap) && CacheCompiled(dataGroupDefinitionMap)
    }

    constructor(groupFiles: map<string, GroupFile>, charsetSupported: string -> bool)
      ensures Valid()
      ensures this.groupFiles == groupFiles && this.charsetSupported == charsetSupported
      ensures dataGroupDefinitionMap == []
    {
      this.groupFiles := groupFiles;
      this.charsetSupported := charsetSupported;
      dataGroupDefinitionMap := [];
    }

    /**
     * loadDataGroupDefinition for the file of `mapKey`. A name already compiled returns at
     * once. Otherwise the declarations are compiled in key order and the root group is stored
     * under the name; a `group` declaration compiles each named file first and appends the
     * cached group. Nothing marks a compilation in progress, so a file that includes itself
     * recurses until the stack is exhausted; `fuel` is the depth of nested compilations the
     * stack allows. compiledWith is the cache as it stood when the file's pass ended.
     */
    method LoadDataGroupDefinition(mapKey: string, fuel: nat) returns (r: Outcome, ghost compiledWith: OMap<Node>)
      requires mapKey in groupFiles && Valid()
      modifies this
      ensures Valid()
      ensures HasKey(old(dataGroupDefinitionMap), mapKey) ==> r == Pass && dataGroupDefinitionMap == old(dataGroupDefinitionMap)
      ensures forall k :: HasKey(old(dataGroupDefinitionMap), k) ==> Get(dataGroupDefinitionMap, k) == Get(old(dataGroupDefinitionMap), k)
      ensures r.Pass? ==> HasKey(dataGroupDefinitionMap, mapKey)
      ensures r.Pass? && !HasKey(old(dataGroupDefinitionMap), mapKey) ==>
                var g := Get(dataGroupDefinitionMap, mapKey).value;
                g.name == GetPropertyOr(groupFiles[mapKey].properties, "name", Some("")).value
                && g.condition == GetPropertyOr(groupFiles[mapKey].properties, "condition", None)
      ensures r.Pass? && !HasKey(old(dataGroupDefinitionMap), mapKey) ==>
                var g := Get(dataGroupDefinitionMap, mapKey).value;
                Keeps(old(dataGroupDefinitionMap), compiledWith)
                && CompilesTo(groupFiles[mapKey], compiledWith, charsetSupported, g)
                && dataGroupDefinitionMap == Put(compiledWith, mapKey, g)
      ensures !HasKey(old(dataGroupDefinitionMap), mapKey) && fuel == 0 ==> r == Fail(StackOverflow)
      ensures !HasKey(old(dataGroupDefinitionMap), mapKey) && IncludesFirst(groupFiles[mapKey], mapKey) ==>
                r == Fail(StackOverflow)
      decreases fuel, 7
    {
      compiledWith := dataGroupDefinitionMap;
      if HasKey(dataGroupDefinitionMap, mapKey) {
        return Pass, compiledWith;
      }
      if fuel == 0 {
        return Fail(StackOverflow), compiledWith;
      }
      var root, stop := CompileFile(mapKey, fuel);
      compiledWith := dataGroupDefinitionMap;
      if root.Err? {
        return Fail(root.error), compiledWith;
      }
      assert Declarations(groupFiles[mapKey])[..stop] == Declarations(groupFiles[mapKey]);
      assert CompilesTo(groupFiles[mapKey], compiledWith, charsetSupported, root.value);
      PutEntries(dataGroupDefinitionMap, mapKey, root.value);
      dataGroupDefinitionMap := Put(dataGroupDefinitionMap, mapKey, root.value);
      return Pass, compiledWith;
    }

    /**
     * The pass over one file: the root frame from the file's name and condition, each
     * declaration in key order, then the closing check. stop counts the declarations
     * compiled: all of them, after which the result is the closing check of the pass; or the
     * ones before a declaration that is refused, or a `group` declaration whose groups fail.
     */
    method CompileFile(mapKey: string, fuel: nat) returns (r: Result<Node>, ghost stop: nat)
      requires mapKey in groupFiles && Valid() && fuel >= 1
      modifies this
      ensures Valid()
      ensures forall k :: HasKey(old(dataGroupDefinitionMap), k) ==> Get(dataGroupDefinitionMap, k) == Get(old(dataGroupDefinitionMap), k)
      ensures r.Ok? ==> CompiledGroup(r.value)
      ensures r.Ok? ==> r.value.name == GetPropertyOr(groupFiles[mapKey].properties, "name", Some("")).value
      ensures r.Ok? ==> r.value.condition == GetPropertyOr(groupFiles[mapKey].properties, "condition", None)
      ensures !HasKey(old(dataGroupDefinitionMap), mapKey) && IncludesFirst(groupFiles[mapKey], mapKey) ==>
                r == Err(StackOverflow)
      ensures PassEnded(groupFiles[mapKey].path, Declarations(groupFiles[mapKey]), [RootFrame(groupFiles[mapKey])],
                        dataGroupDefinitionMap, charsetSupported, stop, r)
      decreases fuel, 6
    {
      var file := groupFiles[mapKey];
      r, stop := CompilePass(file.path, Declarations(file), RootFrame(file), fuel);
    }

    /**
     * The pass over one file's declarations, from its root frame: each declaration in order, until
     * one is refused or fails (stop is its index) or all compiled (stop is their count) and the
     * frame stack is checked for an unclosed `if`.
     */
    method CompilePass(path: string, decls: seq<(string, string)>, root: Frame, fuel: nat)
      returns (r: Result<Node>, ghost stop: nat)
      requires fuel >= 1 && Valid() && StackShape([root])
      modifies this
      ensures Valid() && Keeps(old(dataGroupDefinitionMap), dataGroupDefinitionMap)
      ensures r.Ok? ==> CompiledGroup(r.value)
      ensures r.Ok? ==> r.value.name == root.group.name && r.value.condition == root.group.condition
      ensures (|decls| > 0 && var n := IncludedName(decls[0].1);
               n.Some? && n.value in groupFiles && !HasKey(old(dataGroupDefinitionMap), n.value)
               && IncludesFirst(groupFiles[n.value], n.value)) ==>
                r == Err(StackOverflow)
      ensures PassEnded(path, decls, [root], dataGroupDefinitionMap, charsetSupported, stop, r)
      decreases fuel, 5
    {
      var stack := [root];
      ghost var selfFirst := |decls| > 0 && (var n := IncludedName(decls[0].1);
        n.Some? && n.value in groupFiles && !HasKey(old(dataGroupDefinitionMap), n.value)
        && IncludesFirst(groupFiles[n.value], n.value));
      var i := 0;
      while i < |decls|
        invariant 0 <= i <= |decls|
        invariant Valid() && Keeps(old(dataGroupDefinitionMap), dataGroupDefinitionMap)
        invariant StackShape(stack) && SameRoot(stack, [root])
        invariant i == 0 ==> dataGroupDefinitionMap == old(dataGroupDefinitionMap)
        invariant i > 0 ==> !selfFirst
        invariant Run(decls[..i], [root], Stepper(path, dataGroupDefinitionMap, charsetSupported)) == Compiled(stack)
      {
        var step;
        step, stack := CompileNext(path, decls, [root], i, stack, fuel);
        if step.Fail? {
          return Err(step.error), i;
        }
        i := i + 1;
      }
      r, stop := Finish(path, stack), i;
    }

    /**
     * Declaration i of a pass whose first i declarations compiled to stack: compiled, the pass
     * goes on with one declaration more; refused or failing, the pass ends there.
     */
    method CompileNext(path: string, decls: seq<(string, string)>, ghost root: seq<Frame>, i: nat, stack: seq<Frame>, fuel: nat)
      returns (r: Outcome, stack': seq<Frame>)
      requires fuel >= 1 && Valid() && i < |decls| && StackShape(stack)
      requires Run(decls[..i], root, Stepper(path, dataGroupDefinitionMap, charsetSupported)) == Compiled(stack)
      modifies this
      ensures Valid() && Keeps(old(dataGroupDefinitionMap), dataGroupDefinitionMap)
      ensures r.Pass? ==> StackShape(stack') && SameRoot(stack', stack)
      ensures r.Pass? ==> Run(decls[..i + 1], root, Stepper(path, dataGroupDefinitionMap, charsetSupported)) == Compiled(stack')
      ensures r.Fail? ==> PassEnded(path, decls, root, dataGroupDefinitionMap, charsetSupported, i, Err(r.error))
      ensures (var n := IncludedName(decls[i].1);
               n.Some? && n.value in groupFiles && !HasKey(old(dataGroupDefinitionMap), n.value)
               && IncludesFirst(groupFiles[n.value], n.value)) ==> r == Fail(StackOverflow)
      decreases fuel, 4
    {
      ghost var before := dataGroupDefinitionMap;
      r, stack' := CompileDeclaration(path, decls[i].0, decls[i].1, stack, fuel);
      PrefixStep(path, decls, root, i, before, dataGroupDefinitionMap, charsetSupported, stack);
    }

    /**
     * One declaration of the pass: a control keyword moves the frame stack; a leaf declaration
     * adds a definition, or the compiled groups it names, to the current group.
     */
    method CompileDeclaration(path: string, key: string, value: string, stack: seq<Frame>, fuel: nat)
      returns (r: Outcome, stack': seq<Frame>)
      requires fuel >= 1 && Valid() && StackShape(stack) && stack[0].group.Group?
      modifies this
      ensures Valid()
      ensures forall k :: HasKey(old(dataGroupDefinitionMap), k) ==> Get(dataGroupDefinitionMap, k) == Get(old(dataGroupDefinitionMap), k)
      ensures r.Pass? ==> StackShape(stack') && SameRoot(stack', stack)
      ensures !Classify(value).LeafDecl? ==> r.Pass? == ControlStep(path, stack, key, Classify(value)).Ok?
      ensures !Classify(value).LeafDecl? && r.Pass? ==> stack' == ControlStep(path, stack, key, Classify(value)).value
      ensures Classify(value).LeafDecl? && ParseLeaf(path, key, value, charsetSupported).Err? ==>
                r == Fail(ParseLeaf(path, key, value, charsetSupported).error)
      ensures (Classify(value).LeafDecl? && ParseLeaf(path, key, value, charsetSupported).Ok?
               && ParseLeaf(path, key, value, charsetSupported).value.Definition?) ==>
                r == Pass && stack' == AppendToTop(stack, ParseLeaf(path, key, value, charsetSupported).value.node)
      ensures (Classify(value).LeafDecl? && ParseLeaf(path, key, value, charsetSupported).Ok?
               && ParseLeaf(path, key, value, charsetSupported).value.GroupRefs? && r.Pass?) ==>
                var names := ParseLeaf(path, key, value, charsetSupported).value.names;
                (forall k :: 0 <= k < |names| ==> HasKey(dataGroupDefinitionMap, names[k]))
                && stack' == AppendAllToTop(stack, Resolved(dataGroupDefinitionMap, names))
      ensures (var n := IncludedName(value);
               n.Some? && n.value in groupFiles && !HasKey(old(dataGroupDefinitionMap), n.value)
               && IncludesFirst(groupFiles[n.value], n.value)) ==> r == Fail(StackOverflow)
      ensures r.Pass? ==> DeclStep(path, stack, key, value, dataGroupDefinitionMap, charsetSupported) == Compiled(stack')
      ensures r.Fail? && !IncludesGroups(path, key, value, charsetSupported) ==>
                DeclStep(path, stack, key, value, dataGroupDefinitionMap, charsetSupported) == Refused(r.error)
      decreases fuel, 3
    {
      stack' := stack;
      if IncludedName(value).Some? {
        GroupDeclaration(path, key, IncludedName(value).value, charsetSupported);
      }
      var d := Classify(value);
      if !d.LeafDecl? {
        var next := ControlStep(path, stack, key, d);
        if next.Err? {
          return Fail(next.error), stack;
        }
        ControlStepKeepsShape(path, stack, key, d);
        stack' := next.value;
      } else {
        var leaf := ParseLeaf(path, key, value, charsetSupported);
        if leaf.Err? {
          return Fail(leaf.error), stack;
        }
        if leaf.value.Definition? {
          AppendToTopKeepsShape(stack, leaf.value.node);
          stack' := AppendToTop(stack, leaf.value.node);
        } else {
          var loaded;
          loaded, stack' := LoadGroups(path, key, leaf.value.names, stack, fuel);
          if loaded.Fail? {
            return loaded, stack';
          }
          AppendAllToTopRoot(stack, Resolved(dataGroupDefinitionMap, leaf.value.names));
        }
      }
      r := Pass;
    }

    /**
     * The groups a `group` declaration names, in order: each is looked up among the data
     * group files (a missing one is an error naming the declaration's key), compiled, and its
     * cached definition appended to the current group.
     */
    method LoadGroups(path: string, key: string, names: seq<string>, stack: seq<Frame>, fuel: nat)
      returns (r: Outcome, stack': seq<Frame>)
      requires fuel >= 1 && Valid() && StackShape(stack)
      modifies this
      ensures Valid()
      ensures forall k :: HasKey(old(dataGroupDefinitionMap), k) ==> Get(dataGroupDefinitionMap, k) == Get(old(dataGroupDefinitionMap), k)
      ensures r.Pass? ==> forall k :: 0 <= k < |names| ==> HasKey(dataGroupDefinitionMap, names[k])
      ensures r.Pass? ==> stack' == AppendAllToTop(stack, Resolved(dataGroupDefinitionMap, names)) && StackShape(stack')
      ensures |names| > 0 && names[0] !in groupFiles ==> r == Fail(ConfigError(path, key, names[0] + NotFoundSuffix))
      ensures (|names| > 0 && names[0] in groupFiles && !HasKey(old(dataGroupDefinitionMap), names[0])
               && IncludesFirst(groupFiles[names[0]], names[0])) ==> r == Fail(StackOverflow)
      decreases fuel, 2
    {
      stack' := stack;
      ghost var appended: seq<Node> := [];
      AppendNoneToTop(stack);
      ghost var cycle := |names| > 0 && names[0] in groupFiles && !HasKey(old(dataGroupDefinitionMap), names[0])
                         && IncludesFirst(groupFiles[names[0]], names[0]);
      var j := 0;
      while j < |names|
        invariant 0 <= j <= |names| && |appended| == j
        invariant Valid()
        invariant forall k :: HasKey(old(dataGroupDefinitionMap), k) ==> Get(dataGroupDefinitionMap, k) == Get(old(dataGroupDefinitionMap), k)
        invariant forall k :: 0 <= k < j ==> Get(dataGroupDefinitionMap, names[k]) == Some(appended[k])
        invariant stack' == AppendAllToTop(stack, appended)
        invariant j == 0 ==> dataGroupDefinitionMap == old(dataGroupDefinitionMap)
        invariant j > 0 ==> names[0] in groupFiles && !cycle
      {
        ghost var before := dataGroupDefinitionMap;
        var loaded, g;
        loaded, g, stack' := AppendGroup(path, key, names, j, stack, appended, stack', fuel);
        KeepsTransitive(old(dataGroupDefinitionMap), before, dataGroupDefinitionMap);
        if loaded.Fail? {
          return loaded, stack';
        }
        appended := appended + [g];
        j := j + 1;
      }
      ResolvedLookups(dataGroupDefinitionMap, names, appended);
      AppendAllKeepsShape(stack, appended);
      return Pass, stack';
    }

    /** Name j of a `group` declaration loaded and its group appended to the top frame, after the groups of the names before it. */
    method AppendGroup(path: string, key: string, names: seq<string>, j: nat, stack: seq<Frame>, ghost appended: seq<Node>,
                       stack': seq<Frame>, fuel: nat)
      returns (r: Outcome, g: Node, stack'': seq<Frame>)
      requires fuel >= 1 && Valid() && StackShape(stack) && j == |appended| < |names|
      requires forall k :: 0 <= k < j ==> Get(dataGroupDefinitionMap, names[k]) == Some(appended[k])
      requires stack' == AppendAllToTop(stack, appended)
      modifies this
      ensures Valid()
      ensures forall k :: HasKey(old(dataGroupDefinitionMap), k) ==> Get(dataGroupDefinitionMap, k) == Get(old(dataGroupDefinitionMap), k)
      ensures r.Pass? ==> (forall k :: 0 <= k < j + 1 ==> Get(dataGroupDefinitionMap, names[k]) == Some((appended + [g])[k])) &&
                          stack'' == AppendAllToTop(stack, appended + [g])
      ensures names[j] !in groupFiles ==> r == Fail(ConfigError(path, key, names[j] + NotFoundSuffix))
      ensures (names[j] in groupFiles && !HasKey(old(dataGroupDefinitionMap), names[j])
               && IncludesFirst(groupFiles[names[j]], names[j])) ==> r == Fail(StackOverflow)
      decreases fuel, 1
    {
      ghost var before := dataGroupDefinitionMap;
      r, g := LoadGroup(path, key, names[j], fuel);
      if r.Fail? {
        return r, g, stack';
      }
      ResolvedStep(before, dataGroupDefinitionMap, names, appended, g);
      AppendAllToTopSnoc(stack, appended, g);
      stack'' := AppendToTop(stack', g);
    }

    /** One name of a `group` declaration: found among the data group files, compiled, and its cached group returned. */
    method LoadGroup(path: string, key: string, name: string, fuel: nat) returns (r: Outcome, g: Node)
      requires fuel >= 1 && Valid()
      modifies this
      ensures Valid()
      ensures forall k :: HasKey(old(dataGroupDefinitionMap), k) ==> Get(dataGroupDefinitionMap, k) == Get(old(dataGroupDefinitionMap), k)
      ensures r.Pass? ==> Get(dataGroupDefinitionMap, name) == Some(g) && CompiledGroup(g)
      ensures name !in groupFiles ==> r == Fail(ConfigError(path, key, name + NotFoundSuffix))
      ensures (name in groupFiles && !HasKey(old(dataGroupDefinitionMap), name)
               && IncludesFirst(groupFiles[name], name)) ==> r == Fail(StackOverflow)
      decreases fuel, 0
    {
      g := Group("", [], None, None);
      if name !in groupFiles {
        return Fail(ConfigError(path, key, name + NotFoundSuffix)), g;
      }
      ghost var compiledWith;
      r, compiledWith := LoadDataGroupDefinition(name, fuel - 1);
      if r.Pass? {
        g := Get(dataGroupDefinitionMap, name).value;
        CompiledOfGet(dataGroupDefinitionMap, name);
      }
    }
  }

  /** The cache only grows: what two steps keep, their composition keeps. */
  lemma KeepsTransitive(m0: OMap<Node>, m1: OMap<Node>, m2: OMap<Node>)
    requires forall k :: HasKey(m0, k) ==> Get(m1, k) == Get(m0, k)
    requires forall k :: HasKey(m1, k) ==> Get(m2, k) == Get(m1, k)
    ensures forall k :: HasKey(m0, k) ==> Get(m2, k) == Get(m0, k)
  {
  }

  lemma ResolvedStep(m: OMap<Node>, m': OMap<Node>, names: seq<string>, appended: seq<Node>, g: Node)
    requires |appended| < |names|
    requires forall k :: 0 <= k < |appended| ==> Get(m, names[k]) == Some(appended[k])
    requires forall k :: HasKey(m, k) ==> Get(m', k) == Get(m, k)
    requires Get(m', names[|appended|]) == Some(g)
    ensures forall k :: 0 <= k < |appended| + 1 ==> Get(m', names[k]) == Some((appended + [g])[k])
  {
  }

  /** A cached entry is a compiled group. */
  /** Groups found one by one under names are the names resolved, and each is compiled. */
  lemma ResolvedLookups(m: OMap<Node>, names: seq<string>, gs: seq<Node>)
    requires CacheCompiled(m) && |gs| == |names|
    requires forall k :: 0 <= k < |names| ==> HasKey(m, names[k]) && Get(m, names[k]) == Some(gs[k])
    ensures gs == Resolved(m, names)
    ensures forall k :: 0 <= k < |gs| ==> CompiledGroup(gs[k])
  {
    forall k | 0 <= k < |gs|
      ensures CompiledGroup(gs[k])
    {
      CompiledOfGet(m, names[k]);
    }
  }

  lemma CompiledOfGet(m: OMap<Node>, k: string)
    requires forall i :: 0 <= i < |m| ==> CompiledGroup(m[i].1)
    requires HasKey(m, k)
    ensures CompiledGroup(Get(m, k).value)
  {
  }

  lemma AppendNoneToTop(stack: seq<Frame>)
    requires |stack| > 0 && Top(stack).group.Group?
    ensures AppendAllToTop(stack, []) == stack
  {
    var t := Top(stack);
    assert t.group.(children := t.group.children + []) == t.group;
    assert stack[..|stack| - 1] + [t] == stack;
  }

  /** Appending one more compiled group keeps the stack's shape and extends what was appended. */
  lemma AppendGroupStep(stack: seq<Frame>, appended: seq<Node>, g: Node)
    requires |stack| > 0 && Top(stack).group.Group?
    requires StackShape(AppendAllToTop(stack, appended)) && CompiledGroup(g)
    ensures StackShape(AppendToTop(AppendAllToTop(stack, appended), g))
    ensures AppendToTop(AppendAllToTop(stack, appended), g) == AppendAllToTop(stack, appended + [g])
  {
    AppendToTopKeepsShape(AppendAllToTop(stack, appended), g);
    AppendAllToTopSnoc(stack, appended, g);
  }

  /** Appending compiled groups to the top frame keeps the stack's shape. */
  lemma {:induction false} AppendAllKeepsShape(stack: seq<Frame>, cs: seq<Node>)
    requires StackShape(stack)
    requires forall k :: 0 <= k < |cs| ==> CompiledGroup(cs[k])
    ensures StackShape(AppendAllToTop(stack, cs))
    decreases |cs|
  {
    if |cs| == 0 {
      AppendNoneToTop(stack);
    } else {
      var init, last := cs[..|cs| - 1], cs[|cs| - 1];
      assert init + [last] == cs;
      assert forall k :: 0 <= k < |init| ==> init[k] == cs[k];
      AppendAllKeepsShape(stack, init);
      AppendGroupStep(stack, init, last);
    }
  }

  /** The compiled groups of the given names, in order. */
  function Resolved(m: OMap<Node>, names: seq<string>): (gs: seq<Node>)
    requires forall k :: 0 <= k < |names| ==> HasKey(m, names[k])
    ensures |gs| == |names|
    ensures forall k :: 0 <= k < |names| ==> Some(gs[k]) == Get(m, names[k])
  {
    seq(|names|, k requires 0 <= k < |names| => Get(m, names[k]).value)
  }

  /** Each of cs appended in turn to the top frame's group. */
  function AppendAllToTop(stack: seq<Frame>, cs: seq<Node>): (r: seq<Frame>)
    requires |stack| > 0 && Top(stack).group.Group?
    ensures |r| == |stack| && r[..|r| - 1] == stack[..|stack| - 1]
    ensures Top(r) == Frame(Top(stack).key, Top(stack).group.(children := Top(stack).group.children + cs))
  {
    stack[..|stack| - 1] + [Frame(Top(stack).key, Top(stack).group.(children := Top(stack).group.children + cs))]
  }

  /** Appending to the top frame leaves the root's key, name and condition as they were. */
  lemma AppendAllToTopRoot(stack: seq<Frame>, cs: seq<Node>)
    requires |stack| > 0 && Top(stack).group.Group? && stack[0].group.Group?
    ensures AppendAllToTop(stack, cs)[0].key == stack[0].key
    ensures AppendAllToTop(stack, cs)[0].group.Group?
    ensures AppendAllToTop(stack, cs)[0].group.name == stack[0].group.name
    ensures AppendAllToTop(stack, cs)[0].group.condition == stack[0].group.condition
  {
    var r := AppendAllToTop(stack, cs);
    if |stack| > 1 {
      assert r[0] == r[..|r| - 1][0] == stack[..|stack| - 1][0];
    }
  }

  lemma AppendAllToTopSnoc(stack: seq<Frame>, cs: seq<Node>, c: Node)
    requires |stack| > 0 && Top(stack).group.Group?
    ensures AppendToTop(AppendAllToTop(stack, cs), c) == AppendAllToTop(stack, cs + [c])
  {
    assert Top(stack).group.children + cs + [c] == Top(stack).group.children + (cs + [c]);
  }

}
