/**
 * The PL/SQL concrete parse tree that the rule analyser walks, as the external
 * ANTLR parser builds it. There is one datatype per parser context the analyser
 * reads, named after the context class (`IfStatementCtx` for
 * `If_statementContext`), holding the sub-nodes its typed accessors return.
 * `Node` is the sum of all of them: it is the element type of every `children`
 * list the analyser iterates with `child is XContext` tests, and the argument
 * type of the generic name-resolution entry points.
 *
 * Typed accessors that the analyser dereferences without a null check are
 * required fields here; accessors it checks for null are `Option`s. Every node
 * carries its source text (`GetText()`), which the model treats as opaque.
 */
module PlSqlTree {
  import opened Wrappers
  import opened Text

  /** The terminal symbols the analyser compares token codes against. */
  datatype TokenKind =
    | IN | OUT | INOUT
    | FOR | WHILE | LOOP
    | WITH | UNION | ALL
    | BEFORE | AFTER | INSTEAD
    | OtherToken

  /**
   * `identifier ('.' id_expression)?`: the shape shared by procedure_name,
   * function_name, trigger_name and tableview_name.
   */
  datatype QualifiedNameCtx = QualifiedNameCtx(identifier: string, idExpression: Option<string>, text: string)

  datatype Node =
    | Terminal(kind: TokenKind, text: string)
    | NSeqOfStatements(seqOfStatements: SeqOfStatementsCtx)
    | NSqlStatement(sql: SqlStatementCtx)
    | NAssignment(assignment: AssignmentStatementCtx)
    | NIf(ifStatement: IfStatementCtx)
    | NCase(caseStatement: CaseStatementCtx)
    | NLoop(loop: LoopStatementCtx)
    | NFunctionCall(call: FunctionCall)
    | NExit(exit: ExitStatementCtx)
    | NBody(body: BodyCtx)
    | NReturn(ret: ReturnStatementCtx)
    | NDml(dml: DmlStatementsCtx)
    | NCursorManipulation(cursor: CursorManipulationCtx)
    | NOpen(open: OpenStatementCtx)
    | NFetch(fetch: FetchStatementCtx)
    | NClose(close: CloseStatementCtx)
    | NSelectStatement(select: SelectStatementCtx)
    | NInsert(insert: InsertStatementCtx)
    | NUpdate(update: UpdateStatementCtx)
    | NDelete(delete: DeleteStatementCtx)
    | NSelectOnly(selectOnly: SelectOnlyStatementCtx)
    | NOffsetClause(offsetExpression: string, text: string)
    | NFetchClause(fetchExpression: Option<string>, text: string)
    | NSubquery(subquery: SubqueryCtx)
    | NFactoringClause(factoring: SubqueryFactoringClauseCtx)
    | NFactoringElement(factoringElement: FactoringElementCtx)
    | NSubqueryBasic(basic: SubqueryBasicElementsCtx)
    | NOperationPart(operation: SubqueryOperationPartCtx)
    | NInsertInto(into: InsertIntoClauseCtx)
    | NValues(values: ValuesClauseCtx)
    | NExpressions(expressions: ExpressionsCtx)
    | NExpression(text: string)
    | NCondition(text: string)
    | NCursorLoopParam(text: string)
    | NVariableDeclaration(variable: VariableDeclarationCtx)
    | NCursorDeclaration(cursorDeclaration: CursorDeclarationCtx)
    | NWhereClause(where: WhereClauseCtx)
    | NTableviewName(tableview: QualifiedNameCtx)
    | NTableRefAuxInternalOne(text: string)
    | NGeneralTableRef(general: GeneralTableRefCtx)
    | NTableRefAux(aux: TableRefAuxCtx)
    | NTableRefList(list: TableRefListCtx)
    | NTableRef(tableRef: TableRefCtx)
    | NColumnName(column: ColumnNameCtx)
    | NSelectListElements(selectElement: SelectListElementsCtx)
    | NSelectedList(selected: SelectedListCtx)
    | NGeneralElementPart(part: GeneralElementPartCtx)
    | NStandardFunction(text: string)
    | NFunctionArgument(argument: FunctionArgumentCtx)
    | NOther(ruleName: string, text: string)

  // ---- bodies and statements ----

  /** body: BEGIN seq_of_statements (EXCEPTION exception_handler+)? END */
  datatype BodyCtx = BodyCtx(children: seq<Node>, handlers: seq<ExceptionHandlerCtx>, text: string)

  /** exception_handler: WHEN exception_name (OR exception_name)* THEN seq_of_statements */
  datatype ExceptionHandlerCtx = ExceptionHandlerCtx(firstName: string, moreNames: seq<string>, statements: SeqOfStatementsCtx)

  datatype SeqOfStatementsCtx = SeqOfStatementsCtx(statements: seq<StatementCtx>, text: string)

  datatype StatementCtx = StatementCtx(children: seq<Node>, text: string)

  datatype SqlStatementCtx = SqlStatementCtx(children: seq<Node>, text: string)

  datatype DmlStatementsCtx = DmlStatementsCtx(children: seq<Node>, text: string)

  datatype CursorManipulationCtx = CursorManipulationCtx(children: seq<Node>, text: string)

  datatype OpenStatementCtx = OpenStatementCtx(cursorName: string, text: string)

  datatype FetchStatementCtx = FetchStatementCtx(cursorName: string, variableNames: seq<string>, text: string)

  datatype CloseStatementCtx = CloseStatementCtx(cursorName: string, text: string)

  /** The children of an assignment_statement that ParseSetStatement distinguishes. */
  datatype AssignmentChild =
    | GeneralElement(text: string)
    | AssignedExpression(text: string)
    | OtherAssignmentChild(text: string)

  /**
   * Every expression child has a general_element child before it: exactly when
   * `statements.Last()` in ParseSetStatement finds a statement to update.
   */
  predicate ValueFollowsKey(children: seq<AssignmentChild>) {
    forall i :: 0 <= i < |children| && children[i].AssignedExpression? ==>
      exists j :: 0 <= j < i && children[j].GeneralElement?
  }

  /** The assignment children on which the analyser does not throw. */
  type AssignmentChildren = s: seq<AssignmentChild> | ValueFollowsKey(s) witness []

  datatype AssignmentStatementCtx = AssignmentStatementCtx(children: AssignmentChildren, text: string)

  /** if_statement: IF condition THEN seq_of_statements elsif_part* else_part? END IF */
  datatype IfStatementCtx = IfStatementCtx(
    condition: string,
    statements: SeqOfStatementsCtx,
    elsifs: seq<ElsifPartCtx>,
    elsePart: Option<SeqOfStatementsCtx>,
    text: string)

  datatype ElsifPartCtx = ElsifPartCtx(condition: string, statements: SeqOfStatementsCtx)

  /** case_statement: simple_case_statement | searched_case_statement */
  datatype CaseStatementCtx = CaseStatementCtx(simple: Option<SimpleCaseStatementCtx>, text: string)

  datatype SimpleCaseStatementCtx = SimpleCaseStatementCtx(
    expression: string,
    whens: seq<SimpleCaseWhenPartCtx>,
    elsePart: Option<SeqOfStatementsCtx>)

  datatype SimpleCaseWhenPartCtx = SimpleCaseWhenPartCtx(expression: string, statements: SeqOfStatementsCtx)

  /** loop_statement: label? (WHILE condition | FOR cursor_loop_param)? LOOP seq_of_statements END LOOP */
  datatype LoopStatementCtx = LoopStatementCtx(children: seq<Node>, text: string)

  /** function_call: routine_name function_argument? */
  datatype FunctionCallCtx = FunctionCallCtx(routineName: string, argument: Option<FunctionArgumentCtx>, text: string)

  /** The routine-name fragment, matched ignoring case, that makes a call a print. */
  const PrintRoutine := "DBMS_OUTPUT"

  /**
   * A function_call on which the analyser does not throw: only a print may lack
   * its argument list, because every other call reads the list's arguments.
   */
  predicate ArgumentsReadable(c: FunctionCallCtx) {
    c.argument.Some? || ContainsIgnoreCase(c.routineName, PrintRoutine)
  }

  type FunctionCall = c: FunctionCallCtx | ArgumentsReadable(c)
    witness FunctionCallCtx("", Some(FunctionArgumentCtx([], "")), "")

  datatype FunctionArgumentCtx = FunctionArgumentCtx(arguments: seq<string>, text: string)

  datatype ExitStatementCtx = ExitStatementCtx(condition: Option<string>, text: string)

  datatype ReturnStatementCtx = ReturnStatementCtx(expression: Option<string>, text: string)

  // ---- queries ----

  /** select_statement: select_only_statement (for_update_clause | offset_clause | fetch_clause)* */
  datatype SelectStatementCtx = SelectStatementCtx(children: seq<Node>, text: string)

  /** select_only_statement: subquery_factoring_clause? subquery */
  datatype SelectOnlyStatementCtx = SelectOnlyStatementCtx(children: seq<Node>, text: string)

  /** subquery: subquery_basic_elements subquery_operation_part* */
  datatype SubqueryCtx = SubqueryCtx(basic: SubqueryBasicElementsCtx, operations: seq<SubqueryOperationPartCtx>, text: string)

  /** subquery_factoring_clause: WITH factoring_element (',' factoring_element)* */
  datatype SubqueryFactoringClauseCtx = SubqueryFactoringClauseCtx(children: seq<Node>, text: string)

  datatype FactoringElementCtx = FactoringElementCtx(queryName: string, subquery: SubqueryCtx, text: string)

  datatype SubqueryBasicElementsCtx = SubqueryBasicElementsCtx(block: QueryBlockCtx, text: string)

  /** subquery_operation_part: (UNION ALL? | INTERSECT | MINUS) subquery_basic_elements */
  datatype SubqueryOperationPartCtx = SubqueryOperationPartCtx(children: seq<Node>, text: string)

  datatype QueryBlockCtx = QueryBlockCtx(
    selected: SelectedListCtx,
    from: FromClauseCtx,
    into: Option<IntoClauseCtx>,
    where: Option<WhereClauseCtx>,
    groupBy: Option<GroupByClauseCtx>,
    orderBy: Option<OrderByClauseCtx>)

  datatype SelectedListCtx = SelectedListCtx(elements: seq<SelectListElementsCtx>, text: string)

  datatype SelectListElementsCtx = SelectListElementsCtx(
    tableview: Option<QualifiedNameCtx>,
    expression: Option<string>,
    alias: Option<ColumnAliasCtx>,
    text: string)

  /** column_alias: AS? (identifier | quoted_string) | AS */
  datatype ColumnAliasCtx = ColumnAliasCtx(identifier: Option<string>)

  datatype FromClauseCtx = FromClauseCtx(tableRefList: TableRefListCtx)

  datatype TableRefListCtx = TableRefListCtx(tableRefs: seq<TableRefCtx>, text: string)

  datatype TableRefCtx = TableRefCtx(
    aux: TableRefAuxCtx,
    joins: seq<JoinClauseCtx>,
    pivot: Option<PivotClauseCtx>,
    unpivot: Option<UnpivotClauseCtx>,
    text: string)

  /** table_ref_aux: table_ref_aux_internal flashback_query_clause* table_alias? */
  datatype TableRefAuxCtx = TableRefAuxCtx(internal: string, alias: Option<string>, text: string)

  /** join_clause with its outer_join_type text, its target and its join_on_part conditions. */
  datatype JoinClauseCtx = JoinClauseCtx(outerJoinType: string, target: TableRefAuxCtx, onConditions: seq<string>)

  datatype PivotClauseCtx = PivotClauseCtx(
    element: PivotElementCtx,
    moreElements: seq<PivotElementCtx>,
    forColumn: Option<ColumnNameCtx>,
    inElements: seq<string>)

  datatype PivotElementCtx = PivotElementCtx(aggregateFunction: string, expression: string)

  datatype UnpivotClauseCtx = UnpivotClauseCtx(
    column: Option<ColumnNameCtx>,
    forColumn: Option<ColumnNameCtx>,
    inElements: seq<Option<ColumnNameCtx>>)

  /** column_name: identifier ('.' id_expression)* */
  datatype ColumnNameCtx = ColumnNameCtx(identifier: Option<string>, idExpressions: seq<string>, text: string)

  datatype IntoClauseCtx = IntoClauseCtx(firstVariable: string, moreVariables: seq<string>)

  /** where_clause: WHERE (CURRENT OF cursor_name | expression) */
  datatype WhereClauseCtx = WhereClauseCtx(expression: Option<string>, text: string)

  datatype GroupByClauseCtx = GroupByClauseCtx(elements: seq<string>, having: Option<string>)

  datatype OrderByClauseCtx = OrderByClauseCtx(elements: seq<string>)

  datatype GeneralElementPartCtx = GeneralElementPartCtx(idExpressions: seq<string>, children: seq<Node>, text: string)

  // ---- data manipulation ----

  datatype InsertStatementCtx = InsertStatementCtx(single: Option<SingleTableInsertCtx>, text: string)

  datatype SingleTableInsertCtx = SingleTableInsertCtx(children: seq<Node>)

  /** insert_into_clause: INTO general_table_ref paren_column_list */
  datatype InsertIntoClauseCtx = InsertIntoClauseCtx(target: GeneralTableRefCtx, columns: seq<ColumnNameCtx>, text: string)

  datatype ValuesClauseCtx = ValuesClauseCtx(children: seq<Node>, text: string)

  datatype ExpressionsCtx = ExpressionsCtx(children: seq<Node>, text: string)

  datatype UpdateStatementCtx = UpdateStatementCtx(
    target: GeneralTableRefCtx,
    setItems: seq<ColumnBasedUpdateSetClauseCtx>,
    where: Option<WhereClauseCtx>,
    text: string)

  datatype ColumnBasedUpdateSetClauseCtx = ColumnBasedUpdateSetClauseCtx(column: string, expression: string)

  datatype DeleteStatementCtx = DeleteStatementCtx(target: GeneralTableRefCtx, where: Option<WhereClauseCtx>, text: string)

  /** general_table_ref: dml_table_expression_clause table_alias?, with the clause's tableview_name. */
  datatype GeneralTableRefCtx = GeneralTableRefCtx(tableview: Option<QualifiedNameCtx>, alias: Option<string>, text: string)

  // ---- declarations and units ----

  datatype DeclareSpecCtx = DeclareSpecCtx(children: seq<Node>)

  datatype VariableDeclarationCtx = VariableDeclarationCtx(
    identifier: string,
    typeSpec: string,
    defaultExpression: Option<string>,
    text: string)

  datatype CursorDeclarationCtx = CursorDeclarationCtx(identifier: string, select: SelectStatementCtx, text: string)

  /**
   * parameter: parameter_name (IN | OUT | INOUT | NOCOPY)* type_spec default_value_part?
   * `defaultValue` is the text of the whole default_value_part, its `:=` or
   * DEFAULT keyword included.
   */
  datatype ParameterCtx = ParameterCtx(name: string, typeSpec: string, defaultValue: Option<string>, children: seq<Node>)

  datatype UnitStatementCtx = UnitStatementCtx(
    procedureBody: Option<CreateProcedureBodyCtx>,
    functionBody: Option<CreateFunctionBodyCtx>,
    view: Option<CreateViewCtx>,
    trigger: Option<CreateTriggerCtx>)

  datatype CreateProcedureBodyCtx = CreateProcedureBodyCtx(
    name: QualifiedNameCtx,
    parameters: seq<ParameterCtx>,
    declares: seq<DeclareSpecCtx>,
    body: BodyCtx)

  datatype CreateFunctionBodyCtx = CreateFunctionBodyCtx(
    name: QualifiedNameCtx,
    parameters: seq<ParameterCtx>,
    declares: seq<DeclareSpecCtx>,
    returnType: string,
    body: BodyCtx)

  datatype CreateViewCtx = CreateViewCtx(name: QualifiedNameCtx, children: seq<Node>)

  datatype CreateTriggerCtx = CreateTriggerCtx(
    name: QualifiedNameCtx,
    simpleDml: Option<SimpleDmlTriggerCtx>,
    whenCondition: Option<string>,
    block: TriggerBlockCtx,
    children: seq<Node>)

  /** simple_dml_trigger, with its dml_event_clause's target table and event element texts. */
  datatype SimpleDmlTriggerCtx = SimpleDmlTriggerCtx(tableview: QualifiedNameCtx, events: seq<string>)

  datatype TriggerBlockCtx = TriggerBlockCtx(declares: seq<DeclareSpecCtx>, body: BodyCtx)

  // ---- node kinds, for the parent walk ----

  /** The exact runtime class of a parse-tree node. */
  datatype NodeKind =
    | TerminalKind | SeqOfStatementsKind | SqlStatementKind | AssignmentKind | IfKind | CaseKind
    | LoopKind | FunctionCallKind | ExitKind | BodyKind | ReturnKind | DmlKind | CursorManipulationKind
    | OpenKind | FetchKind | CloseKind | SelectStatementKind | InsertKind | UpdateKind | DeleteKind
    | SelectOnlyKind | OffsetClauseKind | FetchClauseKind | SubqueryKind | FactoringClauseKind
    | FactoringElementKind | SubqueryBasicKind | OperationPartKind | InsertIntoKind | ValuesKind
    | ExpressionsKind | ExpressionKind | ConditionKind | CursorLoopParamKind | VariableDeclarationKind
    | CursorDeclarationKind | WhereClauseKind | TableviewNameKind | TableRefAuxInternalOneKind
    | GeneralTableRefKind | TableRefAuxKind | TableRefListKind | TableRefKind | ColumnNameKind
    | SelectListElementsKind | SelectedListKind | GeneralElementPartKind | StandardFunctionKind
    | FunctionArgumentKind
    | OtherKind(ruleName: string)

  function KindOf(n: Node): NodeKind {
    match n
    case Terminal(_, _) => TerminalKind
    case NSeqOfStatements(_) => SeqOfStatementsKind
    case NSqlStatement(_) => SqlStatementKind
    case NAssignment(_) => AssignmentKind
    case NIf(_) => IfKind
    case NCase(_) => CaseKind
    case NLoop(_) => LoopKind
    case NFunctionCall(_) => FunctionCallKind
    case NExit(_) => ExitKind
    case NBody(_) => BodyKind
    case NReturn(_) => ReturnKind
    case NDml(_) => DmlKind
    case NCursorManipulation(_) => CursorManipulationKind
    case NOpen(_) => OpenKind
    case NFetch(_) => FetchKind
    case NClose(_) => CloseKind
    case NSelectStatement(_) => SelectStatementKind
    case NInsert(_) => InsertKind
    case NUpdate(_) => UpdateKind
    case NDelete(_) => DeleteKind
    case NSelectOnly(_) => SelectOnlyKind
    case NOffsetClause(_, _) => OffsetClauseKind
    case NFetchClause(_, _) => FetchClauseKind
    case NSubquery(_) => SubqueryKind
    case NFactoringClause(_) => FactoringClauseKind
    case NFactoringElement(_) => FactoringElementKind
    case NSubqueryBasic(_) => SubqueryBasicKind
    case NOperationPart(_) => OperationPartKind
    case NInsertInto(_) => InsertIntoKind
    case NValues(_) => ValuesKind
    case NExpressions(_) => ExpressionsKind
    case NExpression(_) => ExpressionKind
    case NCondition(_) => ConditionKind
    case NCursorLoopParam(_) => CursorLoopParamKind
    case NVariableDeclaration(_) => VariableDeclarationKind
    case NCursorDeclaration(_) => CursorDeclarationKind
    case NWhereClause(_) => WhereClauseKind
    case NTableviewName(_) => TableviewNameKind
    case NTableRefAuxInternalOne(_) => TableRefAuxInternalOneKind
    case NGeneralTableRef(_) => GeneralTableRefKind
    case NTableRefAux(_) => TableRefAuxKind
    case NTableRefList(_) => TableRefListKind
    case NTableRef(_) => TableRefKind
    case NColumnName(_) => ColumnNameKind
    case NSelectListElements(_) => SelectListElementsKind
    case NSelectedList(_) => SelectedListKind
    case NGeneralElementPart(_) => GeneralElementPartKind
    case NStandardFunction(_) => StandardFunctionKind
    case NFunctionArgument(_) => FunctionArgumentKind
    case NOther(r, _) => OtherKind(r)
  }

  /** `GetText()` of a node. */
  function TextOf(n: Node): string {
    match n
    case Terminal(_, t) => t
    case NSeqOfStatements(x) => x.text
    case NSqlStatement(x) => x.text
    case NAssignment(x) => x.text
    case NIf(x) => x.text
    case NCase(x) => x.text
    case NLoop(x) => x.text
    case NFunctionCall(x) => x.text
    case NExit(x) => x.text
    case NBody(x) => x.text
    case NReturn(x) => x.text
    case NDml(x) => x.text
    case NCursorManipulation(x) => x.text
    case NOpen(x) => x.text
    case NFetch(x) => x.text
    case NClose(x) => x.text
    case NSelectStatement(x) => x.text
    case NInsert(x) => x.text
    case NUpdate(x) => x.text
    case NDelete(x) => x.text
    case NSelectOnly(x) => x.text
    case NOffsetClause(_, t) => t
    case NFetchClause(_, t) => t
    case NSubquery(x) => x.text
    case NFactoringClause(x) => x.text
    case NFactoringElement(x) => x.text
    case NSubqueryBasic(x) => x.text
    case NOperationPart(x) => x.text
    case NInsertInto(x) => x.text
    case NValues(x) => x.text
    case NExpressions(x) => x.text
    case NExpression(t) => t
    case NCondition(t) => t
    case NCursorLoopParam(t) => t
    case NVariableDeclaration(x) => x.text
    case NCursorDeclaration(x) => x.text
    case NWhereClause(x) => x.text
    case NTableviewName(x) => x.text
    case NTableRefAuxInternalOne(t) => t
    case NGeneralTableRef(x) => x.text
    case NTableRefAux(x) => x.text
    case NTableRefList(x) => x.text
    case NTableRef(x) => x.text
    case NColumnName(x) => x.text
    case NSelectListElements(x) => x.text
    case NSelectedList(x) => x.text
    case NGeneralElementPart(x) => x.text
    case NStandardFunction(t) => t
    case NFunctionArgument(x) => x.text
    case NOther(_, t) => t
  }

  /** True iff `n` is a terminal of kind `k` (`terminalNode.Symbol.Type == k`). */
  predicate IsToken(n: Node, k: TokenKind) {
    n.Terminal? && n.kind == k
  }
}
