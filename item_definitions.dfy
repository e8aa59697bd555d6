/**
 * The item definitions a data group file compiles to: groups (optionally conditional),
 * fixed- or computed-length string and hex items, meta items and hidden items.
 */
module ItemDefinitions {
  import opened Wrappers
  import opened JavaLang

  /** An item's length: a literal fixed at construction, or an expression evaluated per record. */
  datatype LengthSpec = Fixed(n: int) | Computed(expression: string)

  datatype ConditionType = If | Elsif | Else

  datatype Node =
    | Group(name: string, children: seq<Node>, condition: Option<string>, conditionType: Option<ConditionType>)
    | StringItem(name: string, length: LengthSpec, charset: string, valueExpression: Option<string>)
    | HexItem(name: string, length: LengthSpec, valueExpression: Option<string>)
    | Meta(name: string, expression: string)
    | Hidden(name: string, expression: string)
  {
    /** A fixed-layout item: the kinds that occupy bytes of the record. */
    predicate IsField() { StringItem? || HexItem? }

    /** An ELSIF or ELSE group: it runs only if no earlier branch of its chain ran. */
    predicate IsContinuation() {
      Group? && (conditionType == Some(Elsif) || conditionType == Some(Else))
    }

    predicate IsConditional() { Group? && conditionType.Some? }
  }

  /**
   * AbstractItemDefinition's constructor: a length text matching `^[+-]?\d+$` is parsed
   * at once (a value outside 32 bits throws); any other text is kept as an expression.
   */
  function ClassifyLength(lengthExpression: string): (r: Result<LengthSpec>)
    ensures IsIntegerLiteral(lengthExpression) && InInt32(LiteralValue(lengthExpression)) ==>
              r == Ok(Fixed(LiteralValue(lengthExpression)))
    ensures IsIntegerLiteral(lengthExpression) && !InInt32(LiteralValue(lengthExpression)) ==>
              r == Err(NumberFormat(lengthExpression))
    ensures !IsIntegerLiteral(lengthExpression) ==> r == Ok(Computed(lengthExpression))
  {
    if IsIntegerLiteral(lengthExpression) then
      var n :- ParseInt(lengthExpression);
      Ok(Fixed(n))
    else Ok(Computed(lengthExpression))
  }

  /** The padding item the parser appends: a hex item running from its offset to the end of the record. */
  const Padding: Node := HexItem("[パディング]", Fixed(-1), None)

  lemma PaddingRunsToEnd()
    ensures ClassifyLength("-1") == Ok(Padding.length)
  {
    assert IsIntegerLiteral("-1") by {
      assert "-1"[1..] == "1";
    }
    assert "-1"[1..] == "1";
    assert DecimalValue("1") == 1 by {
      assert "1"[..0] == "";
    }
  }

  /** The children of a definition; every kind except a group has none. */
  function Children(n: Node): (cs: seq<Node>)
    ensures !n.Group? ==> cs == []
  {
    if n.Group? then n.children else []
  }

  /**
   * A chain is well formed when every ELSIF/ELSE group directly follows a conditional group,
   * so that it continues an IF chain.
   */
  predicate ChainWellFormed(children: seq<Node>) {
    forall i :: 0 <= i < |children| && children[i].IsContinuation() ==>
      i > 0 && children[i - 1].IsConditional()
  }

  /** Every group in the tree has a well-formed chain of children. */
  predicate WellFormed(n: Node)
    decreases n, 1
  {
    n.Group? ==> ChildrenWellFormed(n)
  }

  predicate ChildrenWellFormed(n: Node)
    requires n.Group?
    decreases n, 0
  {
    ChainWellFormed(n.children) && forall i :: 0 <= i < |n.children| ==> WellFormed(n.children[i])
  }

  /** Appending a child to a group keeps the chain well formed when the child may follow the last one. */
  lemma AppendKeepsChain(children: seq<Node>, c: Node)
    requires ChainWellFormed(children)
    requires c.IsContinuation() ==> |children| > 0 && children[|children| - 1].IsConditional()
    ensures ChainWellFormed(children + [c])
  {
  }

  /** Adding a child to a group's children as the loaders intend: it becomes the last child. */
  function AppendChild(g: Node, c: Node): (r: Node)
    requires g.Group?
    ensures r.Group? && r.children == g.children + [c]
    ensures r.name == g.name && r.condition == g.condition && r.conditionType == g.conditionType
  {
    g.(children := g.children + [c])
  }

  /**
   * Adding a child as the code is written: the group stores its children as
   * Collections.unmodifiableList, so the add that a loader performs throws.
   */
  function AppendChildAsWritten(g: Node, c: Node): (r: Result<Node>)
    requires g.Group?
    ensures r == Err(UnsupportedOperation)
  {
    Err(UnsupportedOperation)
  }

  /**
   * As written, no group can gain a child, so a data group file with any declaration fails to
   * load: the add never yields the group the intended append builds.
   */
  lemma AppendChildAsWrittenAlwaysFails(g: Node, c: Node)
    requires g.Group?
    ensures AppendChildAsWritten(g, c).Err?
    ensures AppendChildAsWritten(g, c) != Ok(AppendChild(g, c))
  {
  }
}
