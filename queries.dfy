/**
 * The query builders: select statements with their limit clauses, subqueries
 * with their set operations and common table expressions, query blocks, and
 * from clauses with joins, pivots and unpivots.
 *
 * The loops of ParseSelectStatement, ParseSubQueryFactoringCause,
 * ParseSubQueryOperation and ParseFormClause are methods; each is proved equal
 * to a specification function that folds the same children, and the
 * properties the analyser promises are proved about those functions.
 */
module Queries {
  import opened Wrappers
  import opened PlSqlTree
  import opened SqlModel
  import opened NameResolution

  /**
   * The ancestry passed to ParseColumnName for select list elements and
   * column_name nodes; only a general_element_part looks at its ancestors
   * (NameResolution.ColumnNameIgnoresAncestors).
   */
  const NoAncestors: seq<NodeKind> := []

  /** True iff a terminal of kind `k` occurs among `children[..j]`. */
  predicate TokenBefore(children: seq<Node>, j: nat, k: TokenKind)
    requires j <= |children|
  {
    exists m :: 0 <= m < j && IsToken(children[m], k)
  }

  /** `children[j]` is the last of `children[..i]` that satisfies `p`. */
  predicate LastWhere(children: seq<Node>, i: nat, j: nat, p: Node -> bool)
    requires i <= |children|
  {
    j < i && p(children[j]) && forall k :: j < k < i ==> !p(children[k])
  }

  /** No child among `children[..i]` satisfies `p`. */
  predicate NoneWhere(children: seq<Node>, i: nat, p: Node -> bool)
    requires i <= |children|
  {
    forall k :: 0 <= k < i ==> !p(children[k])
  }

  /** Dropping the last of `children[..i]`: the last match is that child, or a match of the shorter prefix. */
  lemma LastWhereStep(children: seq<Node>, i: nat, j: nat, p: Node -> bool)
    requires 0 < i <= |children| && LastWhere(children, i, j, p)
    ensures j == i - 1 || (!p(children[i - 1]) && LastWhere(children, i - 1, j, p))
  {
  }

  lemma NoneWhereStep(children: seq<Node>, i: nat, p: Node -> bool)
    requires 0 < i <= |children| && NoneWhere(children, i, p)
    ensures !p(children[i - 1]) && NoneWhere(children, i - 1, p)
  {
  }

  // ---- query blocks ----

  /**
   * The columns of a select list: one per select_list_elements, or, when there
   * is none (`SELECT *`), the whole list as a single column.
   */
  function SelectColumns(list: SelectedListCtx): (r: seq<Option<ColumnNameToken>>)
    ensures |r| == if |list.elements| == 0 then 1 else |list.elements|
    ensures forall k :: 0 <= k < |r| ==> r[k].Some?
    ensures |list.elements| == 0 ==> r[0] == Some(Column(list.text, None, None, None))
    ensures forall k :: 0 <= k < |list.elements| ==> r[k].value.symbol == list.elements[k].text
    ensures forall k :: 0 <= k < |list.elements| ==>
              r[k] == ParseColumnName(Some(NSelectListElements(list.elements[k])), NoAncestors, false)
  {
    if |list.elements| == 0 then
      [ParseColumnName(Some(NSelectedList(list)), NoAncestors, false)]
    else
      seq(|list.elements|, k requires 0 <= k < |list.elements| =>
        ParseColumnName(Some(NSelectListElements(list.elements[k])), NoAncestors, false))
  }

  /** The `<text>` of each element, tagged `ty`. */
  function Tokens(texts: seq<string>, ty: TokenType): (r: seq<TokenInfo>)
    ensures |r| == |texts|
    ensures forall k :: 0 <= k < |r| ==> r[k] == Token(texts[k], ty)
  {
    seq(|texts|, k requires 0 <= k < |texts| => ParseToken(texts[k], ty))
  }

  /** The INTO clause's first variable, as a table name. */
  function IntoTableOf(into: Option<IntoClauseCtx>): (r: Option<TokenInfo>)
    ensures r.Some? <==> into.Some?
    ensures r.Some? ==> r.value == Token(into.value.firstVariable, TableName)
  {
    into.Map((i: IntoClauseCtx) => Token(i.firstVariable, TableName))
  }

  /** The WHERE clause's expression, as a condition; unset without a WHERE clause or its expression. */
  function WhereOf(where: Option<WhereClauseCtx>): (r: Option<TokenInfo>)
    ensures r.Some? <==> where.Some? && where.value.expression.Some?
    ensures r.Some? ==> r.value == Token(where.value.expression.value, Condition)
  {
    if where.Some? then ParseCondition(where.value.expression.Map((e: string) => NExpression(e))) else None
  }

  /** The GROUP BY elements; unset without a GROUP BY clause or when it lists none. */
  function GroupByOf(groupBy: Option<GroupByClauseCtx>): (r: Option<seq<TokenInfo>>)
    ensures r.Some? <==> groupBy.Some? && |groupBy.value.elements| > 0
    ensures r.Some? ==> r.value == Tokens(groupBy.value.elements, GroupBy)
  {
    if groupBy.Some? && |groupBy.value.elements| > 0 then Some(Tokens(groupBy.value.elements, GroupBy)) else None
  }

  /** The HAVING condition of the GROUP BY clause; unset without either. */
  function HavingOf(groupBy: Option<GroupByClauseCtx>): (r: Option<TokenInfo>)
    ensures r.Some? <==> groupBy.Some? && groupBy.value.having.Some?
    ensures r.Some? ==> r.value == Token(groupBy.value.having.value, Condition)
  {
    if groupBy.Some? then ParseCondition(groupBy.value.having.Map((h: string) => NCondition(h))) else None
  }

  /** The ORDER BY elements; unset without an ORDER BY clause or when it lists none. */
  function OrderByOf(orderBy: Option<OrderByClauseCtx>): (r: Option<seq<TokenInfo>>)
    ensures r.Some? <==> orderBy.Some? && |orderBy.value.elements| > 0
    ensures r.Some? ==> r.value == Tokens(orderBy.value.elements, OrderBy)
  {
    if orderBy.Some? && |orderBy.value.elements| > 0 then Some(Tokens(orderBy.value.elements, OrderBy)) else None
  }

  /** ParseSubQueryBasic: one query block, with each optional clause set only when present. */
  function ParseSubQueryBasic(b: SubqueryBasicElementsCtx): (r: SelectStatement)
    ensures r.columns == SelectColumns(b.block.selected)
    ensures r.fromItems == FromItemsOf(b.block.from)
    ensures r.intoTableName.Some? <==> b.block.into.Some?
    ensures r.intoTableName.Some? ==> r.intoTableName.value == Token(b.block.into.value.firstVariable, TableName)
    ensures r.where.Some? <==> b.block.where.Some? && b.block.where.value.expression.Some?
    ensures r.orderBy.Some? <==> b.block.orderBy.Some? && |b.block.orderBy.value.elements| > 0
    ensures r.groupBy.Some? <==> b.block.groupBy.Some? && |b.block.groupBy.value.elements| > 0
    ensures r.having.Some? <==> b.block.groupBy.Some? && b.block.groupBy.value.having.Some?
    ensures r.where.Some? ==> r.where.value == Token(b.block.where.value.expression.value, Condition)
    ensures r.orderBy.Some? ==> r.orderBy.value == Tokens(b.block.orderBy.value.elements, OrderBy)
    ensures r.groupBy.Some? ==> r.groupBy.value == Tokens(b.block.groupBy.value.elements, GroupBy)
    ensures r.having.Some? ==> r.having.value == Token(b.block.groupBy.value.having.value, Condition)
    ensures r.limitInfo.None? && r.withStatements.None? && r.unionStatements.None?
  {
    var block := b.block;
    SelectStatement(
      SelectColumns(block.selected), FromItemsOf(block.from), IntoTableOf(block.into), WhereOf(block.where),
      GroupByOf(block.groupBy), HavingOf(block.groupBy), OrderByOf(block.orderBy), None, None, None)
  }

  // ---- from clause ----

  /** The case-sensitive switch over the text of an outer_join_type. */
  function JoinTypeOf(text: string): (r: Option<JoinType>)
    ensures r.Some? <==> text in {"LEFT", "RIGHT", "FULL", "CROSS"}
    ensures r.Some? ==> r.value != PIVOT && r.value != UNPIVOT
  {
    if text == "LEFT" then Some(LEFT)
    else if text == "RIGHT" then Some(RIGHT)
    else if text == "FULL" then Some(FULL)
    else if text == "CROSS" then Some(CROSS)
    else None
  }

  function ColumnNode(c: Option<ColumnNameCtx>): Option<Node> {
    c.Map((x: ColumnNameCtx) => NColumnName(x))
  }

  /** An optional column_name resolved leniently, outside any select list. */
  function ColumnOf(c: Option<ColumnNameCtx>): (r: Option<ColumnNameToken>)
    ensures r.Some? <==> c.Some?
    ensures r.Some? ==> r.value.symbol == ColumnNameText(c.value)
    ensures r.Some? ==> NamesColumn(r.value, c.value)
  {
    ParseColumnName(ColumnNode(c), NoAncestors, false)
  }

  /** One join of a table reference. */
  function JoinItemOf(j: JoinClauseCtx): (r: JoinItem)
    ensures r.joinType == JoinTypeOf(j.outerJoinType)
    ensures r.tableName.Some? && NamesAuxTable(r.tableName.value, j.target)
    ensures r.condition.Some? <==> |j.onConditions| > 0
    ensures r.condition.Some? ==> r.condition.value == Token(j.onConditions[0], Condition)
    ensures r.pivotItem.None? && r.unPivotItem.None?
  {
    JoinItem(
      JoinTypeOf(j.outerJoinType),
      ParseTableName(Some(NTableRefAux(j.target)), false),
      ParseCondition(if |j.onConditions| > 0 then Some(NCondition(j.onConditions[0])) else None),
      None,
      None)
  }

  /** ParsePivot: the first pivot element, the FOR column and the IN values. */
  function ParsePivot(p: PivotClauseCtx): (r: PivotItem)
    ensures r.aggregationFunctionName == Token(p.element.aggregateFunction, General)
    ensures r.aggregatedColumnName == Token(p.element.expression, ColumnName)
    ensures r.columnName.Some? <==> p.forColumn.Some?
    ensures r.columnName.Some? ==> r.columnName.value.symbol == ColumnNameText(p.forColumn.value)
    ensures r.columnName.Some? ==> NamesColumn(r.columnName.value, p.forColumn.value)
    ensures r.values == Tokens(p.inElements, General)
  {
    PivotItem(
      Token(p.element.aggregateFunction, General),
      ParseToken(p.element.expression, ColumnName),
      ColumnOf(p.forColumn),
      Tokens(p.inElements, General))
  }

  /** ParseUnPivot: the value column, the FOR column and one column per IN element. */
  function ParseUnPivot(u: UnpivotClauseCtx): (r: UnPivotItem)
    ensures r.valueColumnName.Some? <==> u.column.Some?
    ensures r.forColumnName.Some? <==> u.forColumn.Some?
    ensures |r.inColumnNames| == |u.inElements|
    ensures forall k :: 0 <= k < |u.inElements| ==> (r.inColumnNames[k].Some? <==> u.inElements[k].Some?)
    ensures r.valueColumnName.Some? ==> r.valueColumnName.value.symbol == ColumnNameText(u.column.value)
    ensures r.forColumnName.Some? ==> r.forColumnName.value.symbol == ColumnNameText(u.forColumn.value)
    ensures forall k :: 0 <= k < |u.inElements| && u.inElements[k].Some? ==>
      r.inColumnNames[k].value.symbol == ColumnNameText(u.inElements[k].value)
    ensures r.valueColumnName.Some? ==> NamesColumn(r.valueColumnName.value, u.column.value)
    ensures r.forColumnName.Some? ==> NamesColumn(r.forColumnName.value, u.forColumn.value)
    ensures forall k :: 0 <= k < |u.inElements| && u.inElements[k].Some? ==>
      NamesColumn(r.inColumnNames[k].value, u.inElements[k].value)
  {
    UnPivotItem(
      ColumnOf(u.column),
      ColumnOf(u.forColumn),
      seq(|u.inElements|, k requires 0 <= k < |u.inElements| => ColumnOf(u.inElements[k])))
  }

  /** The join items of one table reference: its joins, else a pivot, else an unpivot. */
  function JoinItemsOf(tr: TableRefCtx): seq<JoinItem> {
    if |tr.joins| > 0 then seq(|tr.joins|, k requires 0 <= k < |tr.joins| => JoinItemOf(tr.joins[k]))
    else if tr.pivot.Some? then [JoinItem(Some(PIVOT), None, None, Some(ParsePivot(tr.pivot.value)), None)]
    else if tr.unpivot.Some? then [JoinItem(Some(UNPIVOT), None, None, None, Some(ParseUnPivot(tr.unpivot.value)))]
    else []
  }

  function FromItemOf(tr: TableRefCtx): FromItem {
    FromItem(ParseTableName(Some(NTableRef(tr)), false), JoinItemsOf(tr))
  }

  /** The specification of ParseFormClause: one from item per table reference. */
  function FromItemsOf(from: FromClauseCtx): seq<FromItem> {
    seq(|from.tableRefList.tableRefs|, k requires 0 <= k < |from.tableRefList.tableRefs| =>
      FromItemOf(from.tableRefList.tableRefs[k]))
  }

  /**
   * What a from clause yields: one item per table reference, named after its
   * table_ref_aux; one join item per join when there are joins, otherwise
   * exactly one PIVOT or UNPIVOT item when there is such a clause.
   */
  lemma FromClauseShape(from: FromClauseCtx)
    ensures var items := FromItemsOf(from);
      && |items| == |from.tableRefList.tableRefs|
      && forall k :: 0 <= k < |items| ==>
        var tr := from.tableRefList.tableRefs[k];
        && items[k].tableName == Some(Table(tr.aux.text, Some(Token(tr.aux.internal, TableName)), AliasToken(tr.aux.alias)))
        && (|tr.joins| > 0 ==>
              (&& |items[k].joinItems| == |tr.joins|
               && forall m :: 0 <= m < |tr.joins| ==> items[k].joinItems[m] == JoinItemOf(tr.joins[m])))
        && (|tr.joins| == 0 && tr.pivot.Some? ==> items[k].joinItems == [JoinItem(Some(PIVOT), None, None, Some(ParsePivot(tr.pivot.value)), None)])
        && (|tr.joins| == 0 && tr.pivot.None? && tr.unpivot.Some? ==>
              items[k].joinItems == [JoinItem(Some(UNPIVOT), None, None, None, Some(ParseUnPivot(tr.unpivot.value)))])
        && (|tr.joins| == 0 && tr.pivot.None? && tr.unpivot.None? ==> items[k].joinItems == [])
  {
    forall k | 0 <= k < |from.tableRefList.tableRefs|
      ensures FromItemsOf(from)[k].tableName ==
        Some(Table(from.tableRefList.tableRefs[k].aux.text,
                   Some(Token(from.tableRefList.tableRefs[k].aux.internal, TableName)),
                   AliasToken(from.tableRefList.tableRefs[k].aux.alias)))
    {
      TableRefResolvesThroughAux(from.tableRefList.tableRefs[k], false);
    }
  }

  /** The join-type switch compares exact text: a lower-case keyword classifies as nothing. */
  lemma JoinTypeIsCaseSensitive()
    ensures JoinTypeOf("LEFT") == Some(LEFT)
    ensures JoinTypeOf("left") == None
  {
  }

  /** ParseFormClause: the outer loop over table references and the inner loop over their joins. */
  method ParseFormClause(from: FromClauseCtx) returns (items: seq<FromItem>)
    ensures items == FromItemsOf(from)
  {
    var tables := from.tableRefList.tableRefs;
    items := [];
    var i := 0;
    while i < |tables|
      invariant 0 <= i <= |tables|
      invariant items == FromItemsOf(from)[..i]
    {
      var table := tables[i];
      var joinItems: seq<JoinItem> := [];
      if |table.joins| > 0 {
        var j := 0;
        while j < |table.joins|
          invariant 0 <= j <= |table.joins|
          invariant joinItems == JoinItemsOf(table)[..j]
        {
          var join := table.joins[j];
          var joinType: Option<JoinType> := None;
          var text := join.outerJoinType;
          if text == "LEFT" {
            joinType := Some(LEFT);
          } else if text == "RIGHT" {
            joinType := Some(RIGHT);
          } else if text == "FULL" {
            joinType := Some(FULL);
          } else if text == "CROSS" {
            joinType := Some(CROSS);
          }
          var condition := ParseCondition(if |join.onConditions| > 0 then Some(NCondition(join.onConditions[0])) else None);
          assert joinType == JoinTypeOf(text);
          joinItems := joinItems + [JoinItem(joinType, ParseTableName(Some(NTableRefAux(join.target)), false), condition, None, None)];
          assert JoinItemsOf(table)[..j + 1] == JoinItemsOf(table)[..j] + [JoinItemOf(join)];
          j := j + 1;
        }
        assert joinItems == JoinItemsOf(table);
      } else if table.pivot.Some? {
        joinItems := [JoinItem(Some(PIVOT), None, None, Some(ParsePivot(table.pivot.value)), None)];
      } else if table.unpivot.Some? {
        joinItems := [JoinItem(Some(UNPIVOT), None, None, None, Some(ParseUnPivot(table.unpivot.value)))];
      }
      assert joinItems == JoinItemsOf(table);
      assert FromItem(ParseTableName(Some(NTableRef(table)), false), joinItems) == FromItemOf(table);
      items := items + [FromItem(ParseTableName(Some(NTableRef(table)), false), joinItems)];
      assert FromItemsOf(from)[..i + 1] == FromItemsOf(from)[..i] + [FromItemsOf(from)[i]];
      i := i + 1;
    }
  }

  // ---- set operations ----

  /** The loop state of ParseSubQueryOperation. */
  datatype OperationState = OperationState(isUnion: bool, unionType: UnionType, branch: Option<UnionStatement>)

  /** ParseSubQueryOperation's state after the first `i` children. */
  function OperationPrefix(op: SubqueryOperationPartCtx, i: nat): OperationState
    requires i <= |op.children|
  {
    if i == 0 then OperationState(false, UnionType.UNION, None)
    else
      var s := OperationPrefix(op, i - 1);
      match op.children[i - 1]
      case Terminal(k, _) =>
        if k == TokenKind.UNION then s.(isUnion := true)
        else if k == TokenKind.ALL then s.(unionType := UNION_ALL)
        else s
      case NSubqueryBasic(b) =>
        if s.isUnion then s.(branch := Some(UnionStatement(s.unionType, ParseSubQueryBasic(b)))) else s
      case _ => s
  }

  /** The specification of ParseSubQueryOperation: the union branch of one operation part, if any. */
  function UnionBranchOf(op: SubqueryOperationPartCtx): Option<UnionStatement> {
    OperationPrefix(op, |op.children|).branch
  }

  /** A basic element at `j` that the union rule turns into a branch. */
  predicate UnionElementAt(children: seq<Node>, j: nat)
    requires j < |children|
  {
    children[j].NSubqueryBasic? && TokenBefore(children, j, TokenKind.UNION)
  }

  /** The branch the basic element at `j` yields: UNION ALL iff an ALL terminal came before it. */
  function BranchAt(children: seq<Node>, j: nat): UnionStatement
    requires j < |children| && children[j].NSubqueryBasic?
  {
    UnionStatement(
      if TokenBefore(children, j, TokenKind.ALL) then UNION_ALL else UnionType.UNION,
      ParseSubQueryBasic(children[j].basic))
  }

  /** The flags of ParseSubQueryOperation over each prefix: whether a UNION and an ALL terminal were seen. */
  lemma {:induction false} UnionFlagsPrefix(op: SubqueryOperationPartCtx, i: nat)
    requires i <= |op.children|
    ensures OperationPrefix(op, i).isUnion <==> TokenBefore(op.children, i, TokenKind.UNION)
    ensures OperationPrefix(op, i).unionType == UNION_ALL <==> TokenBefore(op.children, i, TokenKind.ALL)
  {
    var c := op.children;
    if i > 0 {
      UnionFlagsPrefix(op, i - 1);
      assert TokenBefore(c, i, TokenKind.UNION) <==> TokenBefore(c, i - 1, TokenKind.UNION) || IsToken(c[i - 1], TokenKind.UNION);
      assert TokenBefore(c, i, TokenKind.ALL) <==> TokenBefore(c, i - 1, TokenKind.ALL) || IsToken(c[i - 1], TokenKind.ALL);
    }
  }

  /**
   * The union rule, for every prefix of the children: the flags record whether a
   * UNION and an ALL terminal were seen; a branch exists iff some basic element is
   * preceded by a UNION terminal, and it is the branch of such an element.
   */
  lemma {:induction false} UnionRulePrefix(op: SubqueryOperationPartCtx, i: nat)
    requires i <= |op.children|
    ensures OperationPrefix(op, i).isUnion <==> TokenBefore(op.children, i, TokenKind.UNION)
    ensures OperationPrefix(op, i).unionType == UNION_ALL <==> TokenBefore(op.children, i, TokenKind.ALL)
    ensures OperationPrefix(op, i).branch.Some? <==> exists j :: 0 <= j < i && UnionElementAt(op.children, j)
    ensures OperationPrefix(op, i).branch.Some? ==>
      exists j :: 0 <= j < i && UnionElementAt(op.children, j) && OperationPrefix(op, i).branch.value == BranchAt(op.children, j)
  {
    var c := op.children;
    UnionFlagsPrefix(op, i);
    if i > 0 {
      UnionRulePrefix(op, i - 1);
      UnionFlagsPrefix(op, i - 1);
      var s := OperationPrefix(op, i - 1);
      if c[i - 1].NSubqueryBasic? && s.isUnion {
        assert UnionElementAt(c, i - 1);
        assert OperationPrefix(op, i).branch.value == BranchAt(c, i - 1);
      } else {
        assert !UnionElementAt(c, i - 1);
        assert OperationPrefix(op, i).branch == s.branch;
        if s.branch.Some? {
          var j :| 0 <= j < i - 1 && UnionElementAt(c, j) && s.branch.value == BranchAt(c, j);
        }
      }
    }
  }

  /**
   * ParseSubQueryOperation yields a branch iff a UNION terminal precedes a basic
   * element, and the branch's type is UNION_ALL iff an ALL terminal came before
   * that element.
   */
  lemma UnionBranchRule(op: SubqueryOperationPartCtx)
    ensures UnionBranchOf(op).Some? <==> exists j :: 0 <= j < |op.children| && UnionElementAt(op.children, j)
    ensures UnionBranchOf(op).Some? ==>
      exists j :: 0 <= j < |op.children| && UnionElementAt(op.children, j) && UnionBranchOf(op).value == BranchAt(op.children, j)
  {
    UnionRulePrefix(op, |op.children|);
  }

  /** `j` is the last of `children[..i]` that the union rule turns into a branch. */
  predicate LastUnionElement(children: seq<Node>, i: nat, j: nat)
    requires i <= |children|
  {
    j < i && UnionElementAt(children, j) && forall k :: j < k < i ==> !UnionElementAt(children, k)
  }

  /** Each union element overwrites the branch, so over each prefix the last one wins. */
  lemma {:induction false} UnionLastBranchPrefix(op: SubqueryOperationPartCtx, i: nat)
    requires i <= |op.children|
    ensures forall j: nat {:trigger LastUnionElement(op.children, i, j)} :: LastUnionElement(op.children, i, j) ==>
      OperationPrefix(op, i).branch == Some(BranchAt(op.children, j))
  {
    var c := op.children;
    if i > 0 {
      UnionLastBranchPrefix(op, i - 1);
      UnionFlagsPrefix(op, i - 1);
      forall j: nat | LastUnionElement(c, i, j)
        ensures OperationPrefix(op, i).branch == Some(BranchAt(c, j))
      {
        if UnionElementAt(c, i - 1) {
          assert j == i - 1;
        } else {
          assert j < i - 1 && LastUnionElement(c, i - 1, j);
        }
      }
    }
  }

  /** The branch of an operation part is that of its LAST union element. */
  lemma UnionLastBranchRule(op: SubqueryOperationPartCtx, j: nat)
    requires LastUnionElement(op.children, |op.children|, j)
    ensures UnionBranchOf(op) == Some(BranchAt(op.children, j))
  {
    UnionLastBranchPrefix(op, |op.children|);
  }

  /** INTERSECT and MINUS parts, whose keyword is neither UNION nor ALL, produce no branch. */
  lemma {:induction false} NoUnionTokenNoBranch(op: SubqueryOperationPartCtx)
    requires forall m :: 0 <= m < |op.children| ==> !IsToken(op.children[m], TokenKind.UNION)
    ensures UnionBranchOf(op).None?
  {
    UnionRulePrefix(op, |op.children|);
  }

  /** ParseSubQueryOperation: the `isUnion` and `unionType` flags over the children. */
  method ParseSubQueryOperation(op: SubqueryOperationPartCtx) returns (statement: Option<UnionStatement>)
    ensures statement == UnionBranchOf(op)
  {
    var isUnion := false;
    var unionType := UnionType.UNION;
    statement := None;
    var i := 0;
    while i < |op.children|
      invariant 0 <= i <= |op.children|
      invariant OperationPrefix(op, i) == OperationState(isUnion, unionType, statement)
    {
      var child := op.children[i];
      if child.Terminal? {
        if child.kind == TokenKind.UNION {
          isUnion := true;
        } else if child.kind == TokenKind.ALL {
          unionType := UNION_ALL;
        }
      } else if child.NSubqueryBasic? {
        if isUnion {
          statement := Some(UnionStatement(unionType, ParseSubQueryBasic(child.basic)));
        }
      }
      i := i + 1;
    }
  }

  /** The union branches of a sequence of operation parts, in encounter order. */
  function UnionBranches(ops: seq<SubqueryOperationPartCtx>): (r: seq<UnionStatement>)
    ensures |r| <= |ops|
  {
    if |ops| == 0 then [] else BranchList(ops[0]) + UnionBranches(ops[1..])
  }

  /** The branch an operation part yields, as a list of at most one. */
  function BranchList(op: SubqueryOperationPartCtx): seq<UnionStatement> {
    match UnionBranchOf(op) case Some(u) => [u] case None => []
  }

  /** A single operation part yields its own branch, if any. */
  lemma UnionBranchesSingle(op: SubqueryOperationPartCtx)
    ensures UnionBranchOf(op).Some? ==> UnionBranches([op]) == [UnionBranchOf(op).value]
    ensures UnionBranchOf(op).None? ==> UnionBranches([op]) == []
  {
    assert [op][1..] == [];
  }

  /** Branches keep the order of their operation parts. */
  lemma {:induction false} UnionBranchesConcat(a: seq<SubqueryOperationPartCtx>, b: seq<SubqueryOperationPartCtx>)
    ensures UnionBranches(a + b) == UnionBranches(a) + UnionBranches(b)
  {
    if |a| > 0 {
      assert (a + b)[0] == a[0];
      assert (a + b)[1..] == a[1..] + b;
      UnionBranchesConcat(a[1..], b);
      calc {
        UnionBranches(a + b);
        BranchList(a[0]) + UnionBranches(a[1..] + b);
        BranchList(a[0]) + (UnionBranches(a[1..]) + UnionBranches(b));
        UnionBranches(a) + UnionBranches(b);
      }
    } else {
      assert a + b == b;
    }
  }

  /** There is a union branch iff some operation part yields one. */
  lemma {:induction false} UnionBranchesNonEmpty(ops: seq<SubqueryOperationPartCtx>)
    ensures |UnionBranches(ops)| > 0 <==> exists k :: 0 <= k < |ops| && UnionBranchOf(ops[k]).Some?
  {
    if |ops| > 0 {
      UnionBranchesNonEmpty(ops[1..]);
      if UnionBranchOf(ops[0]).None? {
        assert forall k :: 1 <= k < |ops| ==> ops[k] == ops[1..][k - 1];
      }
    }
  }

  /**
   * ParseSubQuery: the basic element's select, with UnionStatements assigned only
   * when at least one operation part yields a branch.
   */
  function ParseSubQuery(s: SubqueryCtx): (r: SelectStatement)
    ensures r.unionStatements.Some? <==> exists k :: 0 <= k < |s.operations| && UnionBranchOf(s.operations[k]).Some?
    ensures r.unionStatements.Some? ==> r.unionStatements.value == UnionBranches(s.operations)
    ensures r.(unionStatements := None) == ParseSubQueryBasic(s.basic)
  {
    UnionBranchesNonEmpty(s.operations);
    var statement := ParseSubQueryBasic(s.basic);
    var branches := UnionBranches(s.operations);
    if |branches| > 0 then statement.(unionStatements := Some(branches)) else statement
  }

  // ---- common table expressions ----

  /** The loop state of ParseSubQueryFactoringCause. */
  datatype FactoringState = FactoringState(isWith: bool, statements: Option<seq<WithStatement>>)

  /** The WITH statement of one factoring element: its query name and its subquery's select. */
  function WithOf(fe: FactoringElementCtx): WithStatement {
    WithStatement(Token(fe.queryName, General), [ParseSubQuery(fe.subquery)])
  }

  /** ParseSubQueryFactoringCause's state after the first `i` children. */
  function FactoringPrefix(f: SubqueryFactoringClauseCtx, i: nat): FactoringState
    requires i <= |f.children|
  {
    if i == 0 then FactoringState(false, None)
    else
      var s := FactoringPrefix(f, i - 1);
      match f.children[i - 1]
      case Terminal(k, _) => if k == TokenKind.WITH then s.(isWith := true) else s
      case NFactoringElement(fe) =>
        if s.isWith then
          s.(statements := Some((if s.statements.Some? then s.statements.value else []) + [WithOf(fe)]))
        else s
      case _ => s
  }

  /** The specification of ParseSubQueryFactoringCause: null until a WITH element is collected. */
  function WithStatementsOf(f: SubqueryFactoringClauseCtx): Option<seq<WithStatement>> {
    FactoringPrefix(f, |f.children|).statements
  }

  /** Reference definition: the factoring elements among `children[..i]` that follow a WITH terminal, in order. */
  function ElementsAfterWith(children: seq<Node>, i: nat): seq<WithStatement>
    requires i <= |children|
  {
    if i == 0 then []
    else
      ElementsAfterWith(children, i - 1) +
      (if children[i - 1].NFactoringElement? && TokenBefore(children, i - 1, TokenKind.WITH)
       then [WithOf(children[i - 1].factoringElement)] else [])
  }

  /** One child's effect on the factoring state: a WITH terminal sets the flag, an element after it is appended. */
  lemma FactoringPrefixStep(f: SubqueryFactoringClauseCtx, i: nat)
    requires i < |f.children|
    ensures FactoringPrefix(f, i + 1) ==
      var s := FactoringPrefix(f, i);
      var n := f.children[i];
      if n.Terminal? && n.kind == TokenKind.WITH then s.(isWith := true)
      else if n.NFactoringElement? && s.isWith then
        s.(statements := Some((if s.statements.Some? then s.statements.value else []) + [WithOf(n.factoringElement)]))
      else s
  {
  }

  lemma {:induction false} FactoringFlagPrefix(f: SubqueryFactoringClauseCtx, i: nat)
    requires i <= |f.children|
    ensures FactoringPrefix(f, i).isWith <==> TokenBefore(f.children, i, TokenKind.WITH)
  {
    if i > 0 {
      var c := f.children;
      FactoringFlagPrefix(f, i - 1);
      FactoringPrefixStep(f, i - 1);
      assert TokenBefore(c, i, TokenKind.WITH) <==> TokenBefore(c, i - 1, TokenKind.WITH) || IsToken(c[i - 1], TokenKind.WITH);
    }
  }

  lemma {:induction false} FactoringPrefixRule(f: SubqueryFactoringClauseCtx, i: nat)
    requires i <= |f.children|
    ensures FactoringPrefix(f, i).isWith <==> TokenBefore(f.children, i, TokenKind.WITH)
    ensures FactoringPrefix(f, i).statements ==
      (if |ElementsAfterWith(f.children, i)| == 0 then None else Some(ElementsAfterWith(f.children, i)))
  {
    FactoringFlagPrefix(f, i);
    if i > 0 {
      var c := f.children;
      FactoringPrefixRule(f, i - 1);
      FactoringPrefixStep(f, i - 1);
      var before := ElementsAfterWith(c, i - 1);
      if c[i - 1].NFactoringElement? && TokenBefore(c, i - 1, TokenKind.WITH) {
        var w := WithOf(c[i - 1].factoringElement);
        assert ElementsAfterWith(c, i) == before + [w];
        if |before| == 0 {
          assert before + [w] == [w];
        }
      } else {
        assert ElementsAfterWith(c, i) == before;
      }
    }
  }

  /**
   * WITH statements are collected only after a WITH terminal, one per factoring
   * element, in source order; the result stays null when there is none.
   */
  lemma WithStatementsRule(f: SubqueryFactoringClauseCtx)
    ensures WithStatementsOf(f) ==
      (if |ElementsAfterWith(f.children, |f.children|)| == 0 then None else Some(ElementsAfterWith(f.children, |f.children|)))
  {
    FactoringPrefixRule(f, |f.children|);
  }

  /** ParseSubQueryFactoringCause: the `isWith` flag and the lazily created list. */
  method ParseSubQueryFactoringCause(f: SubqueryFactoringClauseCtx) returns (statements: Option<seq<WithStatement>>)
    ensures statements == WithStatementsOf(f)
  {
    statements := None;
    var isWith := false;
    var i := 0;
    while i < |f.children|
      invariant 0 <= i <= |f.children|
      invariant FactoringPrefix(f, i) == FactoringState(isWith, statements)
    {
      FactoringPrefixStep(f, i);
      var fc := f.children[i];
      if fc.Terminal? {
        if fc.kind == TokenKind.WITH {
          isWith := true;
        }
      } else if fc.NFactoringElement? {
        if isWith {
          if statements.None? {
            statements := Some([]);
          }
          var withStatement := WithOf(fc.factoringElement);
          statements := Some(statements.value + [withStatement]);
        }
      }
      i := i + 1;
    }
  }

  // ---- select statements ----

  /** The loop state of ParseSelectOnlyStatement. */
  datatype SelectOnlyState = SelectOnlyState(statement: SelectStatement, withStatements: Option<seq<WithStatement>>)

  predicate IsSubqueryNode(n: Node) {
    n.NSubquery?
  }

  /** A factoring clause that collects at least one WITH statement. */
  predicate YieldsWith(n: Node) {
    n.NFactoringClause? && WithStatementsOf(n.factoring).Some?
  }

  function SelectOnlyPrefix(so: SelectOnlyStatementCtx, i: nat): (s: SelectOnlyState)
    requires i <= |so.children|
    ensures s.statement.withStatements.None? && s.statement.limitInfo.None?
  {
    if i == 0 then SelectOnlyState(EmptySelect, None)
    else
      var s := SelectOnlyPrefix(so, i - 1);
      match so.children[i - 1]
      case NSubquery(q) => s.(statement := ParseSubQuery(q))
      case NFactoringClause(f) =>
        var w := WithStatementsOf(f);
        if w.Some? then s.(withStatements := w) else s
      case _ => s
  }

  /**
   * Over each prefix, the statement is that of the last subquery (a new, empty
   * select before the first) and the WITH list is the last non-empty one a
   * factoring clause collected (null before the first).
   */
  lemma SelectOnlyStatementStep(so: SelectOnlyStatementCtx, i: nat)
    requires 0 < i <= |so.children|
    ensures SelectOnlyPrefix(so, i).statement ==
      if IsSubqueryNode(so.children[i - 1]) then ParseSubQuery(so.children[i - 1].subquery)
      else SelectOnlyPrefix(so, i - 1).statement
  {
  }

  lemma {:induction false} SelectOnlyStatementNone(so: SelectOnlyStatementCtx, i: nat)
    requires i <= |so.children|
    ensures NoneWhere(so.children, i, IsSubqueryNode) ==> SelectOnlyPrefix(so, i).statement == EmptySelect
  {
    if i > 0 && NoneWhere(so.children, i, IsSubqueryNode) {
      NoneWhereStep(so.children, i, IsSubqueryNode);
      SelectOnlyStatementNone(so, i - 1);
      SelectOnlyStatementStep(so, i);
    }
  }

  /** The last subquery child among the first `i` supplies the statement. */
  lemma {:induction false} SelectOnlyStatementLast(so: SelectOnlyStatementCtx, i: nat, j: nat)
    requires i <= |so.children| && LastWhere(so.children, i, j, IsSubqueryNode)
    ensures SelectOnlyPrefix(so, i).statement == ParseSubQuery(so.children[j].subquery)
  {
    SelectOnlyStatementStep(so, i);
    if j < i - 1 {
      assert LastWhere(so.children, i - 1, j, IsSubqueryNode);
      SelectOnlyStatementLast(so, i - 1, j);
    }
  }

  lemma SelectOnlyStatementPrefix(so: SelectOnlyStatementCtx, i: nat)
    requires i <= |so.children|
    ensures NoneWhere(so.children, i, IsSubqueryNode) ==> SelectOnlyPrefix(so, i).statement == EmptySelect
    ensures forall j: nat {:trigger LastWhere(so.children, i, j, IsSubqueryNode)} :: LastWhere(so.children, i, j, IsSubqueryNode) ==>
      SelectOnlyPrefix(so, i).statement == ParseSubQuery(so.children[j].subquery)
  {
    SelectOnlyStatementNone(so, i);
    forall j: nat | LastWhere(so.children, i, j, IsSubqueryNode)
      ensures SelectOnlyPrefix(so, i).statement == ParseSubQuery(so.children[j].subquery)
    {
      SelectOnlyStatementLast(so, i, j);
    }
  }

  lemma SelectOnlyWithStep(so: SelectOnlyStatementCtx, i: nat)
    requires 0 < i <= |so.children|
    ensures SelectOnlyPrefix(so, i).withStatements ==
      if YieldsWith(so.children[i - 1]) then WithStatementsOf(so.children[i - 1].factoring)
      else SelectOnlyPrefix(so, i - 1).withStatements
  {
  }

  lemma {:induction false} SelectOnlyWithNone(so: SelectOnlyStatementCtx, i: nat)
    requires i <= |so.children|
    ensures NoneWhere(so.children, i, YieldsWith) ==> SelectOnlyPrefix(so, i).withStatements.None?
  {
    if i > 0 && NoneWhere(so.children, i, YieldsWith) {
      NoneWhereStep(so.children, i, YieldsWith);
      SelectOnlyWithNone(so, i - 1);
      SelectOnlyWithStep(so, i);
    }
  }

  lemma {:induction false} SelectOnlyWithPrefix(so: SelectOnlyStatementCtx, i: nat)
    requires i <= |so.children|
    ensures NoneWhere(so.children, i, YieldsWith) ==> SelectOnlyPrefix(so, i).withStatements.None?
    ensures forall j: nat {:trigger LastWhere(so.children, i, j, YieldsWith)} :: LastWhere(so.children, i, j, YieldsWith) ==>
      SelectOnlyPrefix(so, i).withStatements == WithStatementsOf(so.children[j].factoring)
  {
    SelectOnlyWithNone(so, i);
    if i > 0 {
      var c := so.children;
      SelectOnlyWithPrefix(so, i - 1);
      SelectOnlyWithStep(so, i);
      forall j: nat | LastWhere(c, i, j, YieldsWith)
        ensures SelectOnlyPrefix(so, i).withStatements == WithStatementsOf(c[j].factoring)
      {
        LastWhereStep(c, i, j, YieldsWith);
      }
    }
  }

  /** ParseSelectOnlyStatement: the last subquery child's select, with the WITH list kept apart; never a limit. */
  function ParseSelectOnlyStatement(so: SelectOnlyStatementCtx): (r: SelectStatement)
    ensures r.limitInfo.None?
  {
    var s := SelectOnlyPrefix(so, |so.children|);
    if s.withStatements.Some? then s.statement.(withStatements := s.withStatements) else s.statement
  }

  /**
   * A select-only statement is, apart from its WITH list, the select of its
   * last subquery child (a new, empty select when there is none). It carries
   * the WITH list of the last factoring clause child that collected one, and
   * no WITH list when none did.
   */
  lemma SelectOnlyRule(so: SelectOnlyStatementCtx)
    ensures NoneWhere(so.children, |so.children|, IsSubqueryNode) ==>
      ParseSelectOnlyStatement(so).(withStatements := None) == EmptySelect
    ensures forall j: nat {:trigger LastWhere(so.children, |so.children|, j, IsSubqueryNode)} :: LastWhere(so.children, |so.children|, j, IsSubqueryNode) ==>
      ParseSelectOnlyStatement(so).(withStatements := None) == ParseSubQuery(so.children[j].subquery)
    ensures NoneWhere(so.children, |so.children|, YieldsWith) ==> ParseSelectOnlyStatement(so).withStatements.None?
    ensures forall j: nat {:trigger LastWhere(so.children, |so.children|, j, YieldsWith)} :: LastWhere(so.children, |so.children|, j, YieldsWith) ==>
      ParseSelectOnlyStatement(so).withStatements == WithStatementsOf(so.children[j].factoring)
  {
    SelectOnlyStatementPrefix(so, |so.children|);
    SelectOnlyWithPrefix(so, |so.children|);
  }

  function LimitOrNew(limit: Option<LimitInfo>): LimitInfo {
    if limit.Some? then limit.value else LimitInfo(None, None)
  }

  /** The statement ParseSelectStatement's loop holds after the first `i` children. */
  function SelectStatementAt(sel: SelectStatementCtx, i: nat): SelectStatement
    requires i <= |sel.children|
  {
    if i == 0 then EmptySelect
    else if sel.children[i - 1].NSelectOnly? then ParseSelectOnlyStatement(sel.children[i - 1].selectOnly)
    else SelectStatementAt(sel, i - 1)
  }

  /** The limit ParseSelectStatement's loop holds after the first `i` children, created on first use. */
  function SelectLimitAt(sel: SelectStatementCtx, i: nat): Option<LimitInfo>
    requires i <= |sel.children|
  {
    if i == 0 then None
    else
      var limit := SelectLimitAt(sel, i - 1);
      match sel.children[i - 1]
      case NOffsetClause(e, _) => Some(LimitOrNew(limit).(startRowIndex := Some(Token(e, General))))
      case NFetchClause(e, _) => Some(LimitOrNew(limit).(rowCount := Some(TokenOfNode(e, General))))
      case _ => limit
  }

  /** The specification of ParseSelectStatement. */
  function SelectOf(sel: SelectStatementCtx): SelectStatement {
    var limit := SelectLimitAt(sel, |sel.children|);
    var statement := SelectStatementAt(sel, |sel.children|);
    if limit.Some? then statement.(limitInfo := limit) else statement
  }

  predicate IsSelectOnlyNode(n: Node) {
    n.NSelectOnly?
  }

  predicate IsOffsetNode(n: Node) {
    n.NOffsetClause?
  }

  predicate IsFetchNode(n: Node) {
    n.NFetchClause?
  }

  /** The start row a limit holds, unset while there is no limit. */
  function StartRowOf(limit: Option<LimitInfo>): Option<TokenInfo> {
    if limit.Some? then limit.value.startRowIndex else None
  }

  /** The row count a limit holds, unset while there is no limit. */
  function RowCountOf(limit: Option<LimitInfo>): Option<TokenInfo> {
    if limit.Some? then limit.value.rowCount else None
  }

  lemma SelectLimitStep(sel: SelectStatementCtx, i: nat)
    requires 0 < i <= |sel.children|
    ensures StartRowOf(SelectLimitAt(sel, i)) ==
      if IsOffsetNode(sel.children[i - 1]) then Some(Token(sel.children[i - 1].offsetExpression, General))
      else StartRowOf(SelectLimitAt(sel, i - 1))
    ensures RowCountOf(SelectLimitAt(sel, i)) ==
      if IsFetchNode(sel.children[i - 1]) then Some(TokenOfNode(sel.children[i - 1].fetchExpression, General))
      else RowCountOf(SelectLimitAt(sel, i - 1))
    ensures SelectLimitAt(sel, i).Some? <==>
      SelectLimitAt(sel, i - 1).Some? || IsOffsetNode(sel.children[i - 1]) || IsFetchNode(sel.children[i - 1])
  {
  }

  lemma {:induction false} SelectPrefixLimit(sel: SelectStatementCtx, i: nat)
    requires i <= |sel.children|
    ensures SelectLimitAt(sel, i).Some? <==>
      exists k :: 0 <= k < i && (sel.children[k].NOffsetClause? || sel.children[k].NFetchClause?)
  {
    if i > 0 {
      SelectPrefixLimit(sel, i - 1);
      SelectLimitStep(sel, i);
    }
  }

  /** The statement slot never carries a limit of its own: the limit is kept apart until the end. */
  lemma {:induction false} SelectStatementNoLimit(sel: SelectStatementCtx, i: nat)
    requires i <= |sel.children|
    ensures SelectStatementAt(sel, i).limitInfo.None?
  {
    if i > 0 {
      SelectStatementNoLimit(sel, i - 1);
    }
  }

  lemma {:induction false} SelectStatementPrefix(sel: SelectStatementCtx, i: nat)
    requires i <= |sel.children|
    ensures NoneWhere(sel.children, i, IsSelectOnlyNode) ==> SelectStatementAt(sel, i) == EmptySelect
    ensures forall j: nat {:trigger LastWhere(sel.children, i, j, IsSelectOnlyNode)} :: LastWhere(sel.children, i, j, IsSelectOnlyNode) ==>
      SelectStatementAt(sel, i) == ParseSelectOnlyStatement(sel.children[j].selectOnly)
  {
    if i > 0 {
      var c := sel.children;
      SelectStatementPrefix(sel, i - 1);
      if NoneWhere(c, i, IsSelectOnlyNode) {
        NoneWhereStep(c, i, IsSelectOnlyNode);
      }
      forall j: nat | LastWhere(c, i, j, IsSelectOnlyNode)
        ensures SelectStatementAt(sel, i) == ParseSelectOnlyStatement(c[j].selectOnly)
      {
        LastWhereStep(c, i, j, IsSelectOnlyNode);
      }
    }
  }

  lemma {:induction false} SelectStartRowPrefix(sel: SelectStatementCtx, i: nat)
    requires i <= |sel.children|
    ensures NoneWhere(sel.children, i, IsOffsetNode) ==> StartRowOf(SelectLimitAt(sel, i)).None?
    ensures forall j: nat {:trigger LastWhere(sel.children, i, j, IsOffsetNode)} :: LastWhere(sel.children, i, j, IsOffsetNode) ==>
      StartRowOf(SelectLimitAt(sel, i)) == Some(Token(sel.children[j].offsetExpression, General))
  {
    if i > 0 {
      var c := sel.children;
      SelectStartRowPrefix(sel, i - 1);
      SelectLimitStep(sel, i);
      if NoneWhere(c, i, IsOffsetNode) {
        NoneWhereStep(c, i, IsOffsetNode);
      }
      forall j: nat | LastWhere(c, i, j, IsOffsetNode)
        ensures StartRowOf(SelectLimitAt(sel, i)) == Some(Token(c[j].offsetExpression, General))
      {
        LastWhereStep(c, i, j, IsOffsetNode);
        if j < i - 1 {
          assert LastWhere(c, i - 1, j, IsOffsetNode);
        }
      }
    }
  }

  lemma {:induction false} SelectRowCountPrefix(sel: SelectStatementCtx, i: nat)
    requires i <= |sel.children|
    ensures NoneWhere(sel.children, i, IsFetchNode) ==> RowCountOf(SelectLimitAt(sel, i)).None?
    ensures forall j: nat {:trigger LastWhere(sel.children, i, j, IsFetchNode)} :: LastWhere(sel.children, i, j, IsFetchNode) ==>
      RowCountOf(SelectLimitAt(sel, i)) == Some(TokenOfNode(sel.children[j].fetchExpression, General))
  {
    if i > 0 {
      var c := sel.children;
      SelectRowCountPrefix(sel, i - 1);
      SelectLimitStep(sel, i);
      if NoneWhere(c, i, IsFetchNode) {
        NoneWhereStep(c, i, IsFetchNode);
      }
      forall j: nat | LastWhere(c, i, j, IsFetchNode)
        ensures RowCountOf(SelectLimitAt(sel, i)) == Some(TokenOfNode(c[j].fetchExpression, General))
      {
        LastWhereStep(c, i, j, IsFetchNode);
        if j < i - 1 {
          assert LastWhere(c, i - 1, j, IsFetchNode);
        }
      }
    }
  }

  /**
   * A select statement is its last select_only child's select (a new, empty
   * select when there is none). It carries a LimitInfo iff it has an OFFSET or
   * FETCH clause: the start row is the expression of the last OFFSET clause and
   * the row count that of the last FETCH clause, each unset without one.
   */
  lemma SelectLimitRule(sel: SelectStatementCtx)
    ensures NoneWhere(sel.children, |sel.children|, IsSelectOnlyNode) ==> SelectOf(sel).(limitInfo := None) == EmptySelect
    ensures forall j: nat {:trigger LastWhere(sel.children, |sel.children|, j, IsSelectOnlyNode)} :: LastWhere(sel.children, |sel.children|, j, IsSelectOnlyNode) ==>
      SelectOf(sel).(limitInfo := None) == ParseSelectOnlyStatement(sel.children[j].selectOnly)
    ensures SelectOf(sel).limitInfo.Some? <==>
      exists k :: 0 <= k < |sel.children| && (sel.children[k].NOffsetClause? || sel.children[k].NFetchClause?)
    ensures SelectOf(sel).limitInfo.Some? && NoneWhere(sel.children, |sel.children|, IsOffsetNode) ==>
      SelectOf(sel).limitInfo.value.startRowIndex.None?
    ensures forall j: nat {:trigger LastWhere(sel.children, |sel.children|, j, IsOffsetNode)} :: LastWhere(sel.children, |sel.children|, j, IsOffsetNode) ==>
      SelectOf(sel).limitInfo.Some? &&
      SelectOf(sel).limitInfo.value.startRowIndex == Some(Token(sel.children[j].offsetExpression, General))
    ensures SelectOf(sel).limitInfo.Some? && NoneWhere(sel.children, |sel.children|, IsFetchNode) ==>
      SelectOf(sel).limitInfo.value.rowCount.None?
    ensures forall j: nat {:trigger LastWhere(sel.children, |sel.children|, j, IsFetchNode)} :: LastWhere(sel.children, |sel.children|, j, IsFetchNode) ==>
      SelectOf(sel).limitInfo.Some? &&
      SelectOf(sel).limitInfo.value.rowCount == Some(TokenOfNode(sel.children[j].fetchExpression, General))
  {
    SelectPrefixLimit(sel, |sel.children|);
    SelectStatementNoLimit(sel, |sel.children|);
    SelectStatementPrefix(sel, |sel.children|);
    SelectStartRowPrefix(sel, |sel.children|);
    SelectRowCountPrefix(sel, |sel.children|);
  }

  /** ParseSelectStatement: the last select-only child wins; the limit is created on first use. */
  method ParseSelectStatement(sel: SelectStatementCtx) returns (statement: SelectStatement)
    ensures statement == SelectOf(sel)
  {
    statement := EmptySelect;
    var selectLimitInfo: Option<LimitInfo> := None;
    var i := 0;
    while i < |sel.children|
      invariant 0 <= i <= |sel.children|
      invariant statement == SelectStatementAt(sel, i) && selectLimitInfo == SelectLimitAt(sel, i)
    {
      var child := sel.children[i];
      if child.NSelectOnly? {
        statement := ParseSelectOnlyStatement(child.selectOnly);
      } else if child.NOffsetClause? {
        if selectLimitInfo.None? {
          selectLimitInfo := Some(LimitInfo(None, None));
        }
        selectLimitInfo := Some(selectLimitInfo.value.(startRowIndex := Some(Token(child.offsetExpression, General))));
      } else if child.NFetchClause? {
        if selectLimitInfo.None? {
          selectLimitInfo := Some(LimitInfo(None, None));
        }
        selectLimitInfo := Some(selectLimitInfo.value.(rowCount := Some(TokenOfNode(child.fetchExpression, General))));
      }
      i := i + 1;
    }
    if selectLimitInfo.Some? {
      statement := statement.(limitInfo := selectLimitInfo);
    }
  }
}
