/**
 * Table, column and routine name resolution: ParseTableName, ParseColumnName,
 * ParseCondition, IsFunction, IsChildOfType and the token adapters that consumers
 * call with a node of unknown shape.
 */
module NameResolution {
  import opened Wrappers
  import opened PlSqlTree
  import opened SqlModel

  /** `node as ParserRuleContext`: a terminal is not a rule context, so it becomes null. */
  function AsRuleContext(n: Node): (r: Option<Node>)
    ensures r.None? <==> n.Terminal?
    ensures r.Some? ==> r.value == n
  {
    if n.Terminal? then None else Some(n)
  }

  /** The six node shapes ParseTableName has an accessor path for. */
  predicate IsTableShape(n: Node) {
    || n.NTableviewName?
    || n.NTableRefAuxInternalOne?
    || n.NGeneralTableRef?
    || n.NTableRefAux?
    || n.NTableRefList?
    || n.NTableRef?
  }

  /** A table_ref_list without any table_ref: `FirstOrDefault()` yields null. */
  predicate EmptyTableRefList(n: Node) {
    n.NTableRefList? && |n.list.tableRefs| == 0
  }

  /** How many delegating steps ParseTableName can still take from `node`. */
  function TableShapeLevel(node: Option<Node>): nat {
    match node
    case Some(NTableRefList(_)) => 2
    case Some(NTableRef(_)) => 1
    case _ => 0
  }

  /** The `setAlias` action: a table alias becomes a general token. */
  function AliasToken(alias: Option<string>): (r: Option<TokenInfo>)
    ensures r.Some? <==> alias.Some?
    ensures alias.Some? ==> r.value == Token(alias.value, General)
  {
    if alias.Some? then Some(Token(alias.value, General)) else None
  }

  /**
   * `t` is the table name of a general_table_ref: named by the whole reference's
   * text, its Name the tableview_name of the dml_table_expression_clause (a
   * null-node token when there is none), and its alias the reference's alias.
   */
  predicate NamesGeneralTable(t: TokenInfo, g: GeneralTableRefCtx) {
    t.Table? && t.symbol == g.text && t.alias == AliasToken(g.alias)
    && t.name == Some(if g.tableview.Some? then Token(g.tableview.value.text, TableName) else NullNodeToken(TableName))
  }

  /**
   * `t` is the table name of a table_ref_aux: named by its text, its Name the
   * table_ref_aux_internal, and its alias the reference's alias.
   */
  predicate NamesAuxTable(t: TokenInfo, a: TableRefAuxCtx) {
    t.Table? && t.symbol == a.text && t.name == Some(Token(a.internal, TableName)) && t.alias == AliasToken(a.alias)
  }

  /** The table name of a general_table_ref. */
  function GeneralTableName(g: GeneralTableRefCtx): (r: TableNameToken)
    ensures NamesGeneralTable(r, g)
  {
    Table(g.text, Some(TokenOfNode(if g.tableview.Some? then Some(g.tableview.value.text) else None, TableName)), AliasToken(g.alias))
  }

  /** The table name of a table_ref_aux. */
  function AuxTableName(a: TableRefAuxCtx): (r: TableNameToken)
    ensures NamesAuxTable(r, a)
  {
    Table(a.text, Some(Token(a.internal, TableName)), AliasToken(a.alias))
  }

  /**
   * ParseTableName. The table_ref_list and table_ref cases delegate to the
   * first table_ref and to the table_ref_aux, calling themselves WITHOUT passing
   * `strict` on, so those calls are always lenient.
   */
  function ParseTableName(node: Option<Node>, strict: bool): (r: Option<TableNameToken>)
    decreases TableShapeLevel(node)
    ensures node.None? ==> r.None?
    ensures node.Some? && !IsTableShape(node.value) ==> (r.None? <==> strict)
    ensures node.Some? && !IsTableShape(node.value) && r.Some? ==> r.value == Table(TextOf(node.value), None, None)
    ensures node.Some? && !strict && !EmptyTableRefList(node.value) ==> r.Some?
    ensures node.Some? && IsTableShape(node.value) && !EmptyTableRefList(node.value) ==> r.Some?
    ensures node.Some? && node.value.NTableviewName? ==>
              r == Some(Table(node.value.tableview.text, None, None))
    ensures node.Some? && node.value.NTableRefAuxInternalOne? ==>
              r == Some(Table(node.value.text, None, None))
    ensures node.Some? && node.value.NGeneralTableRef? ==> r.Some? && NamesGeneralTable(r.value, node.value.general)
    ensures node.Some? && node.value.NTableRefAux? ==> r.Some? && NamesAuxTable(r.value, node.value.aux)
  {
    if node.None? then None
    else
      var n := node.value;
      if n.NTableviewName? then Some(Table(n.tableview.text, None, None))
      else if n.NTableRefAuxInternalOne? then Some(Table(n.text, None, None))
      else if n.NGeneralTableRef? then Some(GeneralTableName(n.general))
      else if n.NTableRefAux? then Some(AuxTableName(n.aux))
      else if n.NTableRefList? then
        ParseTableName(if |n.list.tableRefs| > 0 then Some(NTableRef(n.list.tableRefs[0])) else None, false)
      else if n.NTableRef? then ParseTableName(Some(NTableRefAux(n.tableRef.aux)), false)
      else if strict then None
      else Some(Table(TextOf(n), None, None))
  }

  /**
   * IsChildOfType<T>: walks the parent links upwards. `ancestors` lists the kinds
   * of the node's proper ancestors, nearest first.
   */
  function IsChildOfType(ancestors: seq<NodeKind>, t: NodeKind): (r: bool)
    ensures r <==> t in ancestors
  {
    if |ancestors| == 0 then false
    else if ancestors[0] == t then true
    else IsChildOfType(ancestors[1..], t)
  }

  /** The node shapes and contexts for which ParseColumnName finds a column without falling back. */
  predicate RecognisedColumnShape(n: Node, ancestors: seq<NodeKind>) {
    match n
    case NColumnName(c) => |c.idExpressions| > 0 || c.identifier.Some?
    case NSelectListElements(_) => true
    case NGeneralElementPart(p) => SelectListElementsKind in ancestors && |p.idExpressions| > 0
    case _ => false
  }

  /** The shape dispatch of ParseColumnName, before the lenient fallback. */
  function ColumnByShape(n: Node, ancestors: seq<NodeKind>): Option<ColumnNameToken> {
    match n
    case NColumnName(c) =>
      if |c.idExpressions| > 0 then
        Some(Column(c.idExpressions[0], Some(Token(c.idExpressions[0], General)), None, None))
      else if c.identifier.Some? then
        Some(Column(c.identifier.value, Some(Column(c.identifier.value, None, None, None)), None, None))
      else None
    case NSelectListElements(e) =>
      Some(Column(
        e.text,
        e.expression.Map((x: string) => Token(x, General)),
        e.tableview.Map((q: QualifiedNameCtx) => Token(q.text, General)),
        e.alias.Map((a: ColumnAliasCtx) => TokenOfNode(a.identifier, General))))
    case NGeneralElementPart(p) =>
      if IsChildOfType(ancestors, SelectListElementsKind) && |p.idExpressions| > 0 then
        Some(Column(if |p.idExpressions| > 1 then p.idExpressions[1] else p.idExpressions[0], None, None, None))
      else None
    case _ => None
  }

  /** Reference definition: the name ParseColumnName gives a column_name node. */
  function ColumnNameText(c: ColumnNameCtx): string {
    if |c.idExpressions| > 0 then c.idExpressions[0]
    else if c.identifier.Some? then c.identifier.value
    else c.text
  }

  /**
   * `t` is the column a column_name names: its first id_expression, with that id
   * as its Name token; else its identifier, with the identifier as a nested
   * column Name; else, with neither, a bare column named by its text.
   */
  predicate NamesColumn(t: TokenInfo, c: ColumnNameCtx) {
    if |c.idExpressions| > 0 then
      t == Column(c.idExpressions[0], Some(Token(c.idExpressions[0], General)), None, None)
    else if c.identifier.Some? then
      t == Column(c.identifier.value, Some(Column(c.identifier.value, None, None, None)), None, None)
    else
      t == Column(c.text, None, None, None)
  }

  /**
   * ParseColumnName. `ancestors` are the node's proper ancestors, nearest first.
   * They matter only for a general_element_part, which names a column only
   * somewhere below a select_list_elements.
   */
  function ParseColumnName(node: Option<Node>, ancestors: seq<NodeKind>, strict: bool): (r: Option<ColumnNameToken>)
    ensures node.None? ==> r.None?
    ensures node.Some? && !strict ==> r.Some?
    ensures node.Some? && strict ==> (r.Some? <==> RecognisedColumnShape(node.value, ancestors))
    ensures node.Some? && !RecognisedColumnShape(node.value, ancestors) && r.Some? ==>
      r.value == Column(TextOf(node.value), None, None, None)
    // a column_name is named by its first id_expression, else by its identifier
    ensures node.Some? && node.value.NColumnName? && |node.value.column.idExpressions| > 0 ==>
      var id := node.value.column.idExpressions[0];
      r == Some(Column(id, Some(Token(id, General)), None, None))
    ensures node.Some? && node.value.NColumnName? && |node.value.column.idExpressions| == 0 && node.value.column.identifier.Some? ==>
      var id := node.value.column.identifier.value;
      r == Some(Column(id, Some(Column(id, None, None, None)), None, None))
    // a select element keeps its text and takes its expression, table and alias
    ensures node.Some? && node.value.NSelectListElements? ==>
      var e := node.value.selectElement;
      && r.Some? && r.value.symbol == e.text
      && (r.value.name.Some? <==> e.expression.Some?)
      && (e.expression.Some? ==> r.value.name.value == Token(e.expression.value, General))
      && (r.value.tableName.Some? <==> e.tableview.Some?)
      && (e.tableview.Some? ==> r.value.tableName.value == Token(e.tableview.value.text, General))
      && (r.value.alias.Some? <==> e.alias.Some?)
      && (e.alias.Some? ==> r.value.alias.value == TokenOfNode(e.alias.value.identifier, General))
    // a general_element_part below a select element is named by its second id_expression, else its first
    ensures node.Some? && node.value.NGeneralElementPart? && RecognisedColumnShape(node.value, ancestors) ==>
      var ids := node.value.part.idExpressions;
      r == Some(Column(if |ids| > 1 then ids[1] else ids[0], None, None, None))
  {
    match node
    case None => None
    case Some(n) =>
      var byShape := ColumnByShape(n, ancestors);
      if !strict && byShape.None? then Some(Column(TextOf(n), None, None, None)) else byShape
  }

  /** ParseCondition: a condition, where_clause or expression becomes a condition token. */
  function ParseCondition(node: Option<Node>): (r: Option<TokenInfo>)
    ensures r.Some? <==> node.Some? && (node.value.NCondition? || node.value.NWhereClause? || node.value.NExpression?)
    ensures r.Some? ==> r.value == Token(TextOf(node.value), Condition)
  {
    match node
    case Some(n) =>
      if n.NCondition? || n.NWhereClause? || n.NExpression? then Some(ParseToken(TextOf(n), Condition)) else None
    case None => None
  }

  /** `children.Any(item => item is Function_argumentContext)`. */
  function HasFunctionArgument(children: seq<Node>): (r: bool)
    ensures r <==> exists i :: 0 <= i < |children| && children[i].NFunctionArgument?
  {
    if |children| == 0 then false
    else children[0].NFunctionArgument? || HasFunctionArgument(children[1..])
  }

  /** IsFunction: a standard function, or a general element part applied to arguments. */
  function IsFunction(n: Node): (r: bool)
    ensures r <==> n.NStandardFunction? ||
                   (n.NGeneralElementPart? && exists i :: 0 <= i < |n.part.children| && n.part.children[i].NFunctionArgument?)
  {
    if n.NStandardFunction? then true
    else n.NGeneralElementPart? && HasFunctionArgument(n.part.children)
  }

  /** GetTableNameTokens: the strict table name of the node, as a list of at most one token. */
  function GetTableNameTokens(n: Node): (r: seq<TokenInfo>)
    ensures |r| <= 1
    ensures r == [] <==> ParseTableName(AsRuleContext(n), true).None?
    ensures r != [] ==> r[0].Table? && Some(r[0]) == ParseTableName(AsRuleContext(n), true)
    ensures r == [] <==> !IsTableShape(n) || EmptyTableRefList(n)
  {
    match ParseTableName(AsRuleContext(n), true)
    case Some(t) => [t]
    case None => []
  }

  /** GetColumnNameTokens: the strict column name of the node, as a list of at most one token. */
  function GetColumnNameTokens(n: Node, ancestors: seq<NodeKind>): (r: seq<TokenInfo>)
    ensures |r| <= 1
    ensures r == [] <==> ParseColumnName(AsRuleContext(n), ancestors, true).None?
    ensures r != [] ==> r[0].Column? && Some(r[0]) == ParseColumnName(AsRuleContext(n), ancestors, true)
    ensures r == [] <==> !RecognisedColumnShape(n, ancestors)
  {
    match ParseColumnName(AsRuleContext(n), ancestors, true)
    case Some(c) => [c]
    case None => []
  }

  /**
   * GetRoutineNameTokens: for a general element part applied to arguments, its
   * last id_expression as a routine name; nothing otherwise.
   */
  function GetRoutineNameTokens(n: Node): (r: seq<TokenInfo>)
    ensures |r| <= 1
    ensures |r| == 1 <==> IsFunction(n) && n.NGeneralElementPart? && |n.part.idExpressions| > 0
    ensures |r| == 1 ==> r[0] == Token(n.part.idExpressions[|n.part.idExpressions| - 1], RoutineName)
  {
    if n.NGeneralElementPart? && HasFunctionArgument(n.part.children) && |n.part.idExpressions| > 0 then
      [Token(n.part.idExpressions[|n.part.idExpressions| - 1], RoutineName)]
    else []
  }

  /**
   * The recursive table_ref_list and table_ref cases resolve every shape they
   * reach, so dropping `strict` on the way down changes nothing.
   */
  lemma StrictFlagDropIsUnobservable(n: Node)
    requires n.NTableRefList? || n.NTableRef?
    ensures ParseTableName(Some(n), true) == ParseTableName(Some(n), false)
  {
  }

  /** A from-clause table reference resolves to the table name of its table_ref_aux. */
  lemma TableRefResolvesThroughAux(tr: TableRefCtx, strict: bool)
    ensures ParseTableName(Some(NTableRef(tr)), strict) ==
            Some(Table(tr.aux.text, Some(Token(tr.aux.internal, TableName)), AliasToken(tr.aux.alias)))
  {
  }

  /** A table_ref_list resolves to the table name of its first table_ref, and to null without one. */
  lemma TableRefListResolvesThroughFirst(l: TableRefListCtx, strict: bool)
    ensures |l.tableRefs| == 0 ==> ParseTableName(Some(NTableRefList(l)), strict).None?
    ensures |l.tableRefs| > 0 ==>
              var r := ParseTableName(Some(NTableRefList(l)), strict);
              r.Some? && NamesAuxTable(r.value, l.tableRefs[0].aux)
  {
  }

  /** Only a general_element_part looks at its ancestors. */
  lemma ColumnNameIgnoresAncestors(n: Node, a1: seq<NodeKind>, a2: seq<NodeKind>, strict: bool)
    requires !n.NGeneralElementPart?
    ensures ParseColumnName(Some(n), a1, strict) == ParseColumnName(Some(n), a2, strict)
  {
  }

  /** A general_element_part names a column only under a select_list_elements. */
  lemma {:induction false} GeneralElementColumnNeedsSelectList(p: GeneralElementPartCtx, ancestors: seq<NodeKind>)
    requires |p.idExpressions| > 0
    ensures GetColumnNameTokens(NGeneralElementPart(p), ancestors) != [] <==>
            exists i :: 0 <= i < |ancestors| && ancestors[i] == SelectListElementsKind
  {
    assert SelectListElementsKind in ancestors <==>
           exists i :: 0 <= i < |ancestors| && ancestors[i] == SelectListElementsKind;
  }
}
