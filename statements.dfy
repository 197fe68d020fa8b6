/**
 * The statement builders: bodies, statement lists, the dispatch over statement
 * kinds, control flow, calls, cursors, DML, assignments and declarations.
 *
 * Bodies, statement lists, IF, CASE and LOOP nest inside each other, so their
 * specification functions are one mutually recursive family; each decreases
 * on the parse-tree node it reads. The loops of ParseBody, ParseStatement,
 * ParseLoopStatement, ParseInsertStatement and ParseSetStatement are methods
 * proved equal to those functions.
 */
module Statements {
  import opened Wrappers
  import opened PlSqlTree
  import opened SqlModel
  import opened NameResolution
  import opened Queries
  import opened Text

  // ---- folds over children ----

  /** `children.SelectMany(f)`: the results for each child, in child order. */
  function ConcatMap<N, T>(children: seq<N>, f: N -> seq<T>): seq<T> {
    if |children| == 0 then []
    else ConcatMap(children[..|children| - 1], f) + f(children[|children| - 1])
  }

  lemma ConcatMapStep<N, T>(children: seq<N>, j: nat, f: N -> seq<T>)
    requires j < |children|
    ensures ConcatMap(children[..j + 1], f) == ConcatMap(children[..j], f) + f(children[j])
  {
    assert children[..j + 1][..j] == children[..j];
  }

  /** Results keep the order of the children that produced them. */
  lemma {:induction false} ConcatMapAppend<N, T>(a: seq<N>, b: seq<N>, f: N -> seq<T>)
    ensures ConcatMap(a + b, f) == ConcatMap(a, f) + ConcatMap(b, f)
  {
    if |b| == 0 {
      assert a + b == a;
    } else {
      assert (a + b)[..|a + b| - 1] == a + b[..|b| - 1];
      ConcatMapAppend(a, b[..|b| - 1], f);
    }
  }

  /** A property every single result has holds of the whole concatenation. */
  lemma {:induction false} ConcatMapAll<N, T>(children: seq<N>, f: N -> seq<T>, p: T -> bool)
    requires forall n: N, k :: 0 <= k < |f(n)| ==> p(f(n)[k])
    ensures forall k :: 0 <= k < |ConcatMap(children, f)| ==> p(ConcatMap(children, f)[k])
  {
    if |children| > 0 {
      ConcatMapAll(children[..|children| - 1], f, p);
    }
  }

  lemma {:induction false} ConcatMapEmpty<N, T>(children: seq<N>, f: N -> seq<T>)
    requires forall k :: 0 <= k < |children| ==> f(children[k]) == []
    ensures ConcatMap(children, f) == []
  {
    if |children| > 0 {
      ConcatMapEmpty(children[..|children| - 1], f);
    }
  }

  /** `children.Where(p)`: the children that satisfy `p`, in child order. */
  function Filter<N>(children: seq<N>, p: N -> bool): (r: seq<N>)
    ensures |r| <= |children|
    ensures forall k :: 0 <= k < |r| ==> p(r[k]) && r[k] in children
  {
    if |children| == 0 then []
    else
      var init := children[..|children| - 1];
      var last := children[|children| - 1];
      assert forall n :: n in init ==> n in children;
      Filter(init, p) + (if p(last) then [last] else [])
  }

  /**
   * When exactly the children satisfying `p` contribute, one result `g(n)`
   * each, the k-th result is built from the k-th such child.
   */
  lemma {:induction false} ConcatMapFilter<N, T>(children: seq<N>, f: N -> seq<T>, p: N -> bool, g: N -> T)
    requires forall n :: p(n) ==> f(n) == [g(n)]
    requires forall n :: !p(n) ==> f(n) == []
    ensures |ConcatMap(children, f)| == |Filter(children, p)|
    ensures forall k :: 0 <= k < |Filter(children, p)| ==> ConcatMap(children, f)[k] == g(Filter(children, p)[k])
  {
    if |children| > 0 {
      ConcatMapFilter(children[..|children| - 1], f, p, g);
    }
  }

  // ---- simple statements ----

  /** ParseExitStatement: the condition is wrapped even when the exit has no WHEN. */
  function ParseExitStatement(e: ExitStatementCtx): (r: Statement)
    ensures r.LoopExit? && r.condition.Some?
    ensures TypeOf(r.condition.value) == Condition
    ensures r.condition.value.NullNodeToken? <==> e.condition.None?
    ensures e.condition.Some? ==> r.condition.value == Token(e.condition.value, Condition)
  {
    LoopExit(Some(TokenOfNode(e.condition, Condition)))
  }

  /** ParseReturnStatement: RETURN with a value, or a LEAVE carrying the whole statement. */
  function ParseReturnStatement(ret: ReturnStatementCtx): (r: Statement)
    ensures r.Return? <==> ret.expression.Some?
    ensures r.Leave? <==> ret.expression.None?
    ensures r.Return? ==> r.returnValue == Token(ret.expression.value, General)
    ensures r.Leave? ==> r.content == Token(ret.text, General)
  {
    match ret.expression
    case Some(x) => Return(Token(x, General))
    case None => Leave(Token(ret.text, General))
  }

  /**
   * ParseFunctionCallStatement: a call whose routine name contains DBMS_OUTPUT,
   * ignoring case, is a print of the argument list (of the null node when the
   * call has none); any other is a call, which reads the argument list.
   */
  function ParseFunctionCallStatement(c: FunctionCallCtx): (r: Statement)
    requires !ContainsIgnoreCase(c.routineName, PrintRoutine) ==> c.argument.Some?
    ensures r.Print? <==> ContainsIgnoreCase(c.routineName, PrintRoutine)
    ensures r.Call? <==> !ContainsIgnoreCase(c.routineName, PrintRoutine)
    ensures r.Print? && c.argument.Some? ==> r.content == Token(c.argument.value.text, General)
    ensures r.Print? && c.argument.None? ==> r.content == NullNodeToken(General)
    ensures r.Call? ==> r.name == Token(c.routineName, RoutineName) && r.arguments == Tokens(c.argument.value.arguments, General)
  {
    var functionName := Token(c.routineName, RoutineName);
    if IndexOfIgnoreCase(functionName.symbol, PrintRoutine, 0) >= 0 then
      Print(TokenOfNode(c.argument.Map((a: FunctionArgumentCtx) => a.text), General))
    else Call(functionName, Tokens(c.argument.value.arguments, General))
  }

  /**
   * Case does not matter: a lower-case `dbms_output.put_line` is a print, and
   * without an argument list it prints the null node.
   */
  lemma {:induction false} LowerCasePrintIsPrint(c: FunctionCallCtx)
    requires c.routineName == "dbms_output.put_line"
    ensures ContainsIgnoreCase(c.routineName, PrintRoutine) && ParseFunctionCallStatement(c).Print?
    ensures ContainsIgnoreCase(c.routineName, PrintRoutine) && c.argument.None? ==>
      ParseFunctionCallStatement(c).content == NullNodeToken(General)
  {
    assert MatchesAt(c.routineName, PrintRoutine, 0);
  }

  // ---- cursors ----

  /** ParseOpenCursorStatement: the cursor name as a cursor-name token. */
  function ParseOpenCursorStatement(o: OpenStatementCtx): (r: Statement)
    ensures r.OpenCursor? && r.cursorName == Token(o.cursorName, CursorName)
  {
    OpenCursor(Token(o.cursorName, CursorName))
  }

  /** ParseFetchCursorStatement: the cursor name, and one variable-name token per INTO variable, in order. */
  function ParseFetchCursorStatement(f: FetchStatementCtx): (r: Statement)
    ensures r.FetchCursor? && r.cursorName == Token(f.cursorName, CursorName)
    ensures |r.variables| == |f.variableNames|
    ensures forall k :: 0 <= k < |f.variableNames| ==> r.variables[k] == Token(f.variableNames[k], VariableName)
  {
    FetchCursor(Token(f.cursorName, CursorName), Tokens(f.variableNames, VariableName))
  }

  /** ParseCloseCursorStatement: the cursor name, with the statement marked as the end. */
  function ParseCloseCursorStatement(c: CloseStatementCtx): (r: Statement)
    ensures r.CloseCursor? && r.cursorName == Token(c.cursorName, CursorName) && r.isEnd
  {
    CloseCursor(Token(c.cursorName, CursorName), true)
  }

  predicate IsCursorStatementNode(n: Node) {
    n.NOpen? || n.NFetch? || n.NClose?
  }

  /** The statement one OPEN, FETCH or CLOSE child yields. */
  function CursorStatementOf(n: Node): Statement {
    match n
    case NOpen(o) => ParseOpenCursorStatement(o)
    case NFetch(f) => ParseFetchCursorStatement(f)
    case NClose(c) => ParseCloseCursorStatement(c)
    case _ => NullEntry
  }

  function CursorChild(n: Node): seq<Statement> {
    if IsCursorStatementNode(n) then [CursorStatementOf(n)] else []
  }

  /**
   * ParseCursorManipulationtatement: one statement per OPEN, FETCH or CLOSE
   * child, in child order, each built from that child; other children yield
   * nothing.
   */
  function ParseCursorManipulationtatement(c: CursorManipulationCtx): (r: seq<Statement>)
    ensures var cs := Filter(c.children, IsCursorStatementNode);
      && |r| == |cs|
      && (forall k :: 0 <= k < |cs| && cs[k].NOpen? ==> r[k] == ParseOpenCursorStatement(cs[k].open))
      && (forall k :: 0 <= k < |cs| && cs[k].NFetch? ==> r[k] == ParseFetchCursorStatement(cs[k].fetch))
      && (forall k :: 0 <= k < |cs| && cs[k].NClose? ==> r[k] == ParseCloseCursorStatement(cs[k].close))
  {
    ConcatMapFilter(c.children, CursorChild, IsCursorStatementNode, CursorStatementOf);
    ConcatMap(c.children, CursorChild)
  }

  // ---- data manipulation ----

  /** ParseUpdateStatement; the condition is the whole where_clause, WHERE keyword included. */
  function ParseUpdateStatement(u: UpdateStatementCtx): (r: Statement)
    ensures r.Update? && |r.tableNames| == 1 && r.tableNames[0].Some?
    ensures NamesGeneralTable(r.tableNames[0].value, u.target)
    ensures |r.setItems| == |u.setItems|
    ensures forall k :: 0 <= k < |u.setItems| ==>
      r.setItems[k] == NameValueItem(Token(u.setItems[k].column, ColumnName), Token(u.setItems[k].expression, General))
    ensures r.condition.Some? <==> u.where.Some?
    ensures r.condition.Some? ==> r.condition.value == Token(u.where.value.text, Condition)
  {
    Update(
      [ParseTableName(Some(NGeneralTableRef(u.target)), false)],
      seq(|u.setItems|, k requires 0 <= k < |u.setItems| =>
        NameValueItem(Token(u.setItems[k].column, ColumnName), ParseToken(u.setItems[k].expression, General))),
      ParseCondition(u.where.Map((w: WhereClauseCtx) => NWhereClause(w))))
  }

  /** ParseDeleteStatement: a list holding exactly one delete. */
  function ParseDeleteStatement(d: DeleteStatementCtx): (r: seq<Statement>)
    ensures |r| == 1 && r[0].Delete? && r[0].tableName.Some?
    ensures NamesGeneralTable(r[0].tableName.value, d.target)
    ensures r[0].condition.Some? <==> d.where.Some?
    ensures r[0].condition.Some? ==> r[0].condition.value == Token(d.where.value.text, Condition)
  {
    [Delete(ParseTableName(Some(NGeneralTableRef(d.target)), false), ParseCondition(d.where.Map((w: WhereClauseCtx) => NWhereClause(w))))]
  }

  /** The value tokens of one child of an expressions node. */
  function ExpressionValues(n: Node): seq<TokenInfo> {
    if n.NExpression? then [Token(n.text, General)] else []
  }

  /** The value tokens of one child of a values clause. */
  function ValuesClauseValues(n: Node): seq<TokenInfo> {
    if n.NExpressions? then ConcatMap(n.expressions.children, ExpressionValues) else []
  }

  /**
   * The columns of one INTO clause, one per column_name in order: named by its
   * first id_expression, else by its identifier, else by its whole text.
   */
  function IntoColumns(into: InsertIntoClauseCtx): (r: seq<Option<ColumnNameToken>>)
    ensures |r| == |into.columns|
    ensures forall k :: 0 <= k < |r| && |into.columns[k].idExpressions| > 0 ==>
      var id := into.columns[k].idExpressions[0];
      r[k] == Some(Column(id, Some(Token(id, General)), None, None))
    ensures forall k :: 0 <= k < |r| && |into.columns[k].idExpressions| == 0 && into.columns[k].identifier.Some? ==>
      var id := into.columns[k].identifier.value;
      r[k] == Some(Column(id, Some(Column(id, None, None, None)), None, None))
    ensures forall k :: 0 <= k < |r| && |into.columns[k].idExpressions| == 0 && into.columns[k].identifier.None? ==>
      r[k] == Some(Column(into.columns[k].text, None, None, None))
    ensures forall k :: 0 <= k < |r| ==> r[k].Some? && NamesColumn(r[k].value, into.columns[k])
  {
    seq(|into.columns|, k requires 0 <= k < |into.columns| =>
      ParseColumnName(Some(NColumnName(into.columns[k])), NoAncestors, false))
  }

  function InsertPrefix(children: seq<Node>, i: nat): (r: Statement)
    requires i <= |children|
    ensures r.Insert?
  {
    if i == 0 then Insert(None, [], [])
    else
      var p := InsertPrefix(children, i - 1);
      match children[i - 1]
      case NInsertInto(into) =>
        p.(tableName := ParseTableName(Some(NGeneralTableRef(into.target)), false), columns := p.columns + IntoColumns(into))
      case NValues(v) => p.(values := p.values + ConcatMap(v.children, ValuesClauseValues))
      case _ => p
  }

  /** The specification of ParseInsertStatement. */
  function InsertOf(ins: InsertStatementCtx): (r: Statement)
    ensures r.Insert?
  {
    if ins.single.None? then Insert(None, [], [])
    else InsertPrefix(ins.single.value.children, |ins.single.value.children|)
  }

  lemma InsertIntoValuesPrefix(into: InsertIntoClauseCtx, v: ValuesClauseCtx)
    ensures InsertPrefix([NInsertInto(into), NValues(v)], 2) ==
      Insert(ParseTableName(Some(NGeneralTableRef(into.target)), false), IntoColumns(into), ConcatMap(v.children, ValuesClauseValues))
  {
    var c := [NInsertInto(into), NValues(v)];
    assert InsertPrefix(c, 1) == Insert(ParseTableName(Some(NGeneralTableRef(into.target)), false), IntoColumns(into), []);
  }

  /**
   * `INSERT INTO t (c1, ..., cn) VALUES (e1, ..., em)`: the table is named by
   * the general table ref, the columns are the INTO clause's column names in
   * order, and the values are the expressions of the values clause in order.
   */
  lemma InsertIntoValuesShape(ins: InsertStatementCtx, into: InsertIntoClauseCtx, v: ValuesClauseCtx)
    requires ins.single == Some(SingleTableInsertCtx([NInsertInto(into), NValues(v)]))
    ensures InsertOf(ins).tableName.Some? && NamesGeneralTable(InsertOf(ins).tableName.value, into.target)
    ensures InsertOf(ins).columns == IntoColumns(into)
    ensures InsertOf(ins).values == ConcatMap(v.children, ValuesClauseValues)
  {
    InsertIntoValuesPrefix(into, v);
  }

  /** An insert without a single_table_insert is empty. */
  lemma MultiTableInsertIsEmpty(ins: InsertStatementCtx)
    requires ins.single.None?
    ensures InsertOf(ins) == Insert(None, [], [])
  {
  }

  predicate IsInsertIntoNode(n: Node) {
    n.NInsertInto?
  }

  /** The column names one child of a single_table_insert contributes. */
  function InsertChildColumns(n: Node): seq<Option<ColumnNameToken>> {
    if n.NInsertInto? then IntoColumns(n.into) else []
  }

  /** The value tokens one child of a single_table_insert contributes. */
  function InsertChildValues(n: Node): seq<TokenInfo> {
    if n.NValues? then ConcatMap(n.values.children, ValuesClauseValues) else []
  }

  /** The children the insert loop walks: none for a multi_table_insert. */
  function InsertChildren(ins: InsertStatementCtx): seq<Node> {
    if ins.single.Some? then ins.single.value.children else []
  }

  lemma InsertPrefixStep(c: seq<Node>, i: nat)
    requires 0 < i <= |c|
    ensures InsertPrefix(c, i).columns == InsertPrefix(c, i - 1).columns + InsertChildColumns(c[i - 1])
    ensures InsertPrefix(c, i).values == InsertPrefix(c, i - 1).values + InsertChildValues(c[i - 1])
    ensures InsertPrefix(c, i).tableName ==
      if IsInsertIntoNode(c[i - 1]) then ParseTableName(Some(NGeneralTableRef(c[i - 1].into.target)), false)
      else InsertPrefix(c, i - 1).tableName
  {
    var p := InsertPrefix(c, i - 1);
    assert p.columns + [] == p.columns;
    assert p.values + [] == p.values;
  }

  /** The columns and values gathered from the first `i` children, in order. */
  lemma {:induction false} InsertContentsPrefix(c: seq<Node>, i: nat)
    requires i <= |c|
    ensures InsertPrefix(c, i).columns == ConcatMap(c[..i], InsertChildColumns)
    ensures InsertPrefix(c, i).values == ConcatMap(c[..i], InsertChildValues)
  {
    if i > 0 {
      InsertContentsPrefix(c, i - 1);
      InsertPrefixStep(c, i);
      ConcatMapStep(c, i - 1, InsertChildColumns);
      ConcatMapStep(c, i - 1, InsertChildValues);
    }
  }

  /** The table of the first `i` children: that of the last INTO clause among them, if any. */
  lemma {:induction false} InsertTablePrefix(c: seq<Node>, i: nat)
    requires i <= |c|
    ensures NoneWhere(c, i, IsInsertIntoNode) ==> InsertPrefix(c, i).tableName.None?
    ensures forall j: nat {:trigger LastWhere(c, i, j, IsInsertIntoNode)} :: LastWhere(c, i, j, IsInsertIntoNode) ==>
      InsertPrefix(c, i).tableName == ParseTableName(Some(NGeneralTableRef(c[j].into.target)), false)
  {
    if i > 0 {
      InsertTablePrefix(c, i - 1);
      InsertPrefixStep(c, i);
      if NoneWhere(c, i, IsInsertIntoNode) {
        NoneWhereStep(c, i, IsInsertIntoNode);
      }
      forall j: nat | LastWhere(c, i, j, IsInsertIntoNode)
        ensures InsertPrefix(c, i).tableName == ParseTableName(Some(NGeneralTableRef(c[j].into.target)), false)
      {
        LastWhereStep(c, i, j, IsInsertIntoNode);
        if j < i - 1 {
          assert LastWhere(c, i - 1, j, IsInsertIntoNode);
        }
      }
    }
  }

  /**
   * Any single_table_insert, children in any order: the columns are those of
   * every INTO clause in order, the values those of every values clause in
   * order, and the table is that of the LAST INTO clause (null without one).
   */
  lemma InsertRule(ins: InsertStatementCtx)
    ensures InsertOf(ins).columns == ConcatMap(InsertChildren(ins), InsertChildColumns)
    ensures InsertOf(ins).values == ConcatMap(InsertChildren(ins), InsertChildValues)
    ensures NoneWhere(InsertChildren(ins), |InsertChildren(ins)|, IsInsertIntoNode) ==> InsertOf(ins).tableName.None?
    ensures forall j: nat {:trigger LastWhere(InsertChildren(ins), |InsertChildren(ins)|, j, IsInsertIntoNode)} ::
      LastWhere(InsertChildren(ins), |InsertChildren(ins)|, j, IsInsertIntoNode) ==>
        InsertOf(ins).tableName.Some? &&
        NamesGeneralTable(InsertOf(ins).tableName.value, InsertChildren(ins)[j].into.target)
  {
    var c := InsertChildren(ins);
    InsertContentsPrefix(c, |c|);
    InsertTablePrefix(c, |c|);
    assert c[..|c|] == c;
  }

  /** The inner loop of ParseInsertStatement over the column names of an INTO clause. */
  method AppendIntoColumns(columns: seq<Option<ColumnNameToken>>, into: InsertIntoClauseCtx)
    returns (r: seq<Option<ColumnNameToken>>)
    ensures r == columns + IntoColumns(into)
  {
    r := columns;
    var j := 0;
    while j < |into.columns|
      invariant 0 <= j <= |into.columns|
      invariant r == columns + IntoColumns(into)[..j]
    {
      assert IntoColumns(into)[..j + 1] == IntoColumns(into)[..j] + [IntoColumns(into)[j]];
      r := r + [ParseColumnName(Some(NColumnName(into.columns[j])), NoAncestors, false)];
      j := j + 1;
    }
    assert IntoColumns(into)[..|into.columns|] == IntoColumns(into);
  }

  /** The innermost loop of ParseInsertStatement over the children of an expressions node. */
  method AppendExpressionValues(values: seq<TokenInfo>, exps: seq<Node>) returns (r: seq<TokenInfo>)
    ensures r == values + ConcatMap(exps, ExpressionValues)
  {
    r := values;
    var m := 0;
    while m < |exps|
      invariant 0 <= m <= |exps|
      invariant r == values + ConcatMap(exps[..m], ExpressionValues)
    {
      ConcatMapStep(exps, m, ExpressionValues);
      if exps[m].NExpression? {
        r := r + [Token(exps[m].text, General)];
      }
      m := m + 1;
    }
    assert exps[..|exps|] == exps;
  }

  /** The middle loop of ParseInsertStatement over the children of a values clause. */
  method AppendValuesClause(values: seq<TokenInfo>, vs: seq<Node>) returns (r: seq<TokenInfo>)
    ensures r == values + ConcatMap(vs, ValuesClauseValues)
  {
    r := values;
    var j := 0;
    while j < |vs|
      invariant 0 <= j <= |vs|
      invariant r == values + ConcatMap(vs[..j], ValuesClauseValues)
    {
      ConcatMapStep(vs, j, ValuesClauseValues);
      if vs[j].NExpressions? {
        r := AppendExpressionValues(r, vs[j].expressions.children);
      }
      j := j + 1;
    }
    assert vs[..|vs|] == vs;
  }

  /** ParseInsertStatement: the loop over the children of a single_table_insert. */
  method ParseInsertStatement(ins: InsertStatementCtx) returns (statement: Statement)
    ensures statement == InsertOf(ins)
  {
    statement := Insert(None, [], []);
    if ins.single.Some? {
      var children := ins.single.value.children;
      var i := 0;
      while i < |children|
        invariant 0 <= i <= |children|
        invariant statement == InsertPrefix(children, i)
      {
        var child := children[i];
        if child.NInsertInto? {
          var tableName := ParseTableName(Some(NGeneralTableRef(child.into.target)), false);
          var columns := AppendIntoColumns(statement.columns, child.into);
          statement := statement.(tableName := tableName, columns := columns);
        } else if child.NValues? {
          var values := AppendValuesClause(statement.values, child.values.children);
          statement := statement.(values := values);
        }
        i := i + 1;
      }
    }
  }

  /** The statements one DML child yields: a delete comes as a list of one. */
  function DmlChild(n: Node): seq<Statement> {
    match n
    case NSelectStatement(s) => [Select(SelectOf(s))]
    case NInsert(ins) => [InsertOf(ins)]
    case NUpdate(u) => [ParseUpdateStatement(u)]
    case NDelete(d) => ParseDeleteStatement(d)
    case _ => []
  }

  predicate IsDmlNode(n: Node) {
    n.NSelectStatement? || n.NInsert? || n.NUpdate? || n.NDelete?
  }

  /** The single statement a SELECT, INSERT, UPDATE or DELETE child yields. */
  function DmlStatementOf(n: Node): Statement {
    match n
    case NSelectStatement(s) => Select(SelectOf(s))
    case NInsert(ins) => InsertOf(ins)
    case NUpdate(u) => ParseUpdateStatement(u)
    case NDelete(d) => ParseDeleteStatement(d)[0]
    case _ => NullEntry
  }

  lemma DmlChildIsSingle()
    ensures forall n :: IsDmlNode(n) ==> DmlChild(n) == [DmlStatementOf(n)]
    ensures forall n :: !IsDmlNode(n) ==> DmlChild(n) == []
  {
    forall n: Node | IsDmlNode(n)
      ensures DmlChild(n) == [DmlStatementOf(n)]
    {
      if n.NDelete? {
        var r := ParseDeleteStatement(n.delete);
        assert r == [r[0]];
      }
    }
    forall n: Node | !IsDmlNode(n)
      ensures DmlChild(n) == []
    {
    }
  }

  predicate IsDmlStatement(s: Statement) {
    s.Select? || s.Insert? || s.Update? || s.Delete?
  }

  /**
   * ParseDataManipulationLanguageStatement: one statement per SELECT, INSERT,
   * UPDATE or DELETE child, in child order, each built from that child; other
   * children yield nothing.
   */
  function ParseDataManipulationLanguageStatement(d: DmlStatementsCtx): (r: seq<Statement>)
    ensures var ds := Filter(d.children, IsDmlNode);
      && |r| == |ds|
      && (forall k :: 0 <= k < |ds| && ds[k].NSelectStatement? ==> r[k] == Select(SelectOf(ds[k].select)))
      && (forall k :: 0 <= k < |ds| && ds[k].NInsert? ==> r[k] == InsertOf(ds[k].insert))
      && (forall k :: 0 <= k < |ds| && ds[k].NUpdate? ==> r[k] == ParseUpdateStatement(ds[k].update))
      && (forall k :: 0 <= k < |ds| && ds[k].NDelete? ==> [r[k]] == ParseDeleteStatement(ds[k].delete))
  {
    DmlChildIsSingle();
    ConcatMapFilter(d.children, DmlChild, IsDmlNode, DmlStatementOf);
    ConcatMap(d.children, DmlChild)
  }

  predicate IsCursorStatement(s: Statement) {
    s.OpenCursor? || s.FetchCursor? || s.CloseCursor?
  }

  /** The statements one child of a sql_statement yields. */
  function SqlChild(n: Node): seq<Statement> {
    match n
    case NDml(d) => ParseDataManipulationLanguageStatement(d)
    case NCursorManipulation(c) => ParseCursorManipulationtatement(c)
    case _ => []
  }

  /** ParseSqlStatement: the DML and cursor statements of each child, in order; nothing else. */
  function ParseSqlStatement(sql: SqlStatementCtx): (r: seq<Statement>)
    ensures forall k :: 0 <= k < |r| ==> IsDmlStatement(r[k]) || IsCursorStatement(r[k])
  {
    ConcatMapAll(sql.children, SqlChild, (s: Statement) => IsDmlStatement(s) || IsCursorStatement(s));
    ConcatMap(sql.children, SqlChild)
  }

  /**
   * A sql_statement yields the statements of its children in child order: the
   * statements of a list of children are those of its parts, concatenated.
   */
  lemma ParseSqlStatementInOrder(a: seq<Node>, b: seq<Node>, t: string)
    ensures ParseSqlStatement(SqlStatementCtx(a + b, t)) ==
            ParseSqlStatement(SqlStatementCtx(a, t)) + ParseSqlStatement(SqlStatementCtx(b, t))
  {
    ConcatMapAppend(a, b, SqlChild);
  }

  /**
   * A single DML child yields its DML statements, a single cursor child its
   * cursor statements, and any other child nothing.
   */
  lemma ParseSqlStatementChild(n: Node, t: string)
    ensures n.NDml? ==> ParseSqlStatement(SqlStatementCtx([n], t)) == ParseDataManipulationLanguageStatement(n.dml)
    ensures n.NCursorManipulation? ==> ParseSqlStatement(SqlStatementCtx([n], t)) == ParseCursorManipulationtatement(n.cursor)
    ensures !n.NDml? && !n.NCursorManipulation? ==> ParseSqlStatement(SqlStatementCtx([n], t)) == []
  {
    assert [n][..0] == [];
    assert ConcatMap([n], SqlChild) == ConcatMap([n][..0], SqlChild) + SqlChild(n);
  }

  // ---- assignment ----

  /** ParseSetStatement's list after the first `i` children. */
  function SetPrefix(c: seq<AssignmentChild>, i: nat): (r: seq<Statement>)
    requires i <= |c| && ValueFollowsKey(c)
    ensures forall k :: 0 <= k < |r| ==> r[k].Set?
    ensures (exists j :: 0 <= j < i && c[j].GeneralElement?) ==> |r| > 0
  {
    if i == 0 then []
    else
      var p := SetPrefix(c, i - 1);
      match c[i - 1]
      case GeneralElement(t) => p + [Set(Token(t, General), None)]
      case AssignedExpression(t) =>
        assert exists j :: 0 <= j < i - 1 && c[j].GeneralElement?;
        p[|p| - 1 := p[|p| - 1].(value := Some(ParseToken(t, General)))]
      case OtherAssignmentChild(_) => p
  }

  /** The specification of ParseSetStatement. */
  function SetStatementsOf(a: AssignmentStatementCtx): seq<Statement> {
    SetPrefix(a.children, |a.children|)
  }

  /** Reference definition: the texts of the general_element children among `c[..i]`. */
  function KeysOf(c: seq<AssignmentChild>, i: nat): seq<string>
    requires i <= |c|
  {
    if i == 0 then []
    else KeysOf(c, i - 1) + (if c[i - 1].GeneralElement? then [c[i - 1].text] else [])
  }

  lemma {:induction false} SetKeysPrefix(c: seq<AssignmentChild>, i: nat)
    requires i <= |c| && ValueFollowsKey(c)
    ensures |SetPrefix(c, i)| == |KeysOf(c, i)|
    ensures forall k :: 0 <= k < |KeysOf(c, i)| ==> SetPrefix(c, i)[k].key == Token(KeysOf(c, i)[k], General)
  {
    if i > 0 {
      SetKeysPrefix(c, i - 1);
    }
  }

  lemma {:induction false} KeysOfMonotone(c: seq<AssignmentChild>, j: nat, i: nat)
    requires j <= i <= |c|
    ensures |KeysOf(c, j)| <= |KeysOf(c, i)|
    decreases i - j
  {
    if j < i {
      KeysOfMonotone(c, j, i - 1);
    }
  }

  /**
   * The expression child `j` among `c[..i]` supplies the value of key `k`: it
   * follows `k + 1` general elements, and no later expression before `i` does.
   */
  predicate LastValueOf(c: seq<AssignmentChild>, i: nat, k: nat, j: nat)
    requires i <= |c|
  {
    j < i && c[j].AssignedExpression? && |KeysOf(c, j)| == k + 1 &&
    forall l :: j < l < i && c[l].AssignedExpression? ==> |KeysOf(c, l)| != k + 1
  }

  /** No expression child among `c[..i]` follows exactly `k + 1` general elements. */
  predicate NoValueOf(c: seq<AssignmentChild>, i: nat, k: nat)
    requires i <= |c|
  {
    forall j :: 0 <= j < i && c[j].AssignedExpression? ==> |KeysOf(c, j)| != k + 1
  }

  /** One child's effect on the values: an expression child sets the latest value, a general element adds an unset one. */
  lemma SetValueStep(c: seq<AssignmentChild>, i: nat)
    requires 0 < i <= |c| && ValueFollowsKey(c)
    ensures |SetPrefix(c, i)| == |SetPrefix(c, i - 1)| + (if c[i - 1].GeneralElement? then 1 else 0)
    ensures forall k :: 0 <= k < |SetPrefix(c, i - 1)| ==>
      SetPrefix(c, i)[k].value ==
        if c[i - 1].AssignedExpression? && k == |SetPrefix(c, i - 1)| - 1 then Some(ParseToken(c[i - 1].text, General))
        else SetPrefix(c, i - 1)[k].value
    ensures c[i - 1].GeneralElement? ==> SetPrefix(c, i)[|SetPrefix(c, i - 1)|].value.None?
  {
  }

  lemma {:induction false} SetValuesLast(c: seq<AssignmentChild>, i: nat)
    requires i <= |c| && ValueFollowsKey(c)
    ensures forall k: nat, j: nat :: k < |SetPrefix(c, i)| && LastValueOf(c, i, k, j) ==>
      SetPrefix(c, i)[k].value == Some(ParseToken(c[j].text, General))
  {
    if i > 0 {
      SetValuesLast(c, i - 1);
      SetValueStep(c, i);
      SetKeysPrefix(c, i - 1);
      forall k: nat, j: nat | k < |SetPrefix(c, i)| && LastValueOf(c, i, k, j)
        ensures SetPrefix(c, i)[k].value == Some(ParseToken(c[j].text, General))
      {
        if j < i - 1 {
          KeysOfMonotone(c, j, i - 1);
          assert LastValueOf(c, i - 1, k, j);
        }
      }
    }
  }

  lemma {:induction false} SetValuesNone(c: seq<AssignmentChild>, i: nat)
    requires i <= |c| && ValueFollowsKey(c)
    ensures forall k: nat :: k < |SetPrefix(c, i)| && NoValueOf(c, i, k) ==> SetPrefix(c, i)[k].value.None?
  {
    if i > 0 {
      SetValuesNone(c, i - 1);
      SetValueStep(c, i);
      SetKeysPrefix(c, i - 1);
      forall k: nat | k < |SetPrefix(c, i)| && NoValueOf(c, i, k)
        ensures SetPrefix(c, i)[k].value.None?
      {
        if k < |SetPrefix(c, i - 1)| {
          assert NoValueOf(c, i - 1, k);
        }
      }
    }
  }

  lemma SetValuesPrefix(c: seq<AssignmentChild>, i: nat)
    requires i <= |c| && ValueFollowsKey(c)
    ensures |SetPrefix(c, i)| == |KeysOf(c, i)|
    ensures forall k: nat, j: nat :: k < |KeysOf(c, i)| && LastValueOf(c, i, k, j) ==>
      SetPrefix(c, i)[k].value == Some(ParseToken(c[j].text, General))
    ensures forall k: nat :: k < |KeysOf(c, i)| && NoValueOf(c, i, k) ==> SetPrefix(c, i)[k].value.None?
  {
    SetKeysPrefix(c, i);
    SetValuesLast(c, i);
    SetValuesNone(c, i);
  }

  /**
   * One SET statement per general_element child, in order, keyed by that
   * element. An expression child supplies the value of the latest key before
   * it, so each key takes the last expression between it and the next key,
   * and keeps no value when there is none.
   */
  lemma SetKeysRule(a: AssignmentStatementCtx)
    ensures |SetStatementsOf(a)| == |KeysOf(a.children, |a.children|)|
    ensures forall k :: 0 <= k < |SetStatementsOf(a)| ==>
      SetStatementsOf(a)[k].Set? && SetStatementsOf(a)[k].key == Token(KeysOf(a.children, |a.children|)[k], General)
    ensures forall k: nat, j: nat :: k < |SetStatementsOf(a)| && LastValueOf(a.children, |a.children|, k, j) ==>
      SetStatementsOf(a)[k].value == Some(Token(a.children[j].text, General))
    ensures forall k: nat :: k < |SetStatementsOf(a)| && NoValueOf(a.children, |a.children|, k) ==>
      SetStatementsOf(a)[k].value.None?
  {
    SetKeysPrefix(a.children, |a.children|);
    SetValuesPrefix(a.children, |a.children|);
  }

  /** `x := e` is one SET of `x` to `e`. */
  lemma SimpleAssignment(a: AssignmentStatementCtx, x: string, op: string, e: string)
    requires a.children == [GeneralElement(x), OtherAssignmentChild(op), AssignedExpression(e)]
    ensures SetStatementsOf(a) == [Set(Token(x, General), Some(Token(e, General)))]
  {
    var c := a.children;
    assert SetPrefix(c, 1) == [Set(Token(x, General), None)];
    assert SetPrefix(c, 2) == SetPrefix(c, 1);
  }

  /** ParseSetStatement: each expression updates the last statement of the list. */
  method ParseSetStatement(a: AssignmentStatementCtx) returns (statements: seq<Statement>)
    ensures statements == SetStatementsOf(a)
  {
    statements := [];
    var i := 0;
    while i < |a.children|
      invariant 0 <= i <= |a.children|
      invariant statements == SetPrefix(a.children, i)
    {
      var child := a.children[i];
      if child.GeneralElement? {
        statements := statements + [Set(Token(child.text, General), None)];
      } else if child.AssignedExpression? {
        statements := statements[|statements| - 1 := statements[|statements| - 1].(value := Some(ParseToken(child.text, General)))];
      }
      i := i + 1;
    }
  }

  // ---- declarations ----

  predicate IsDeclarationNode(n: Node) {
    n.NVariableDeclaration? || n.NCursorDeclaration?
  }

  /** The statement a variable or cursor declaration child yields. */
  function DeclarationOf(n: Node): (r: Option<Statement>)
    ensures r.Some? <==> IsDeclarationNode(n)
    ensures r.Some? ==> r.value.Declare? || r.value.DeclareCursor?
  {
    match n
    case NVariableDeclaration(v) =>
      Some(Declare(Token(v.identifier, VariableName), Token(v.typeSpec, DataType),
                   v.defaultExpression.Map((e: string) => Token(e, General))))
    case NCursorDeclaration(c) => Some(DeclareCursor(Token(c.identifier, CursorName), SelectOf(c.select)))
    case _ => None
  }

  function DeclarePrefix(children: seq<Node>, i: nat): Statement
    requires i <= |children|
  {
    if i == 0 then NullEntry
    else
      match DeclarationOf(children[i - 1])
      case Some(s) => s
      case None => DeclarePrefix(children, i - 1)
  }

  lemma {:induction false} DeclarePrefixKind(children: seq<Node>, i: nat)
    requires i <= |children|
    ensures DeclarePrefix(children, i).NullEntry? <==> NoneWhere(children, i, IsDeclarationNode)
    ensures DeclarePrefix(children, i).NullEntry? || DeclarePrefix(children, i).Declare? ||
            DeclarePrefix(children, i).DeclareCursor?
  {
    if i > 0 {
      DeclarePrefixKind(children, i - 1);
      if NoneWhere(children, i, IsDeclarationNode) {
        NoneWhereStep(children, i, IsDeclarationNode);
      }
    }
  }

  lemma {:induction false} DeclarePrefixRule(children: seq<Node>, i: nat)
    requires i <= |children|
    ensures forall j: nat {:trigger LastWhere(children, i, j, IsDeclarationNode)} :: LastWhere(children, i, j, IsDeclarationNode) ==>
      DeclarePrefix(children, i) == DeclarationOf(children[j]).value
  {
    if i > 0 {
      DeclarePrefixRule(children, i - 1);
      forall j: nat | LastWhere(children, i, j, IsDeclarationNode)
        ensures DeclarePrefix(children, i) == DeclarationOf(children[j]).value
      {
        LastWhereStep(children, i, j, IsDeclarationNode);
      }
    }
  }

  /**
   * ParseDeclareStatement: the statement of the last variable or cursor
   * declaration child, a variable or cursor declaration; the null entry iff
   * there is no such child.
   */
  function ParseDeclareStatement(d: DeclareSpecCtx): (r: Statement)
    ensures r.NullEntry? <==> NoneWhere(d.children, |d.children|, IsDeclarationNode)
    ensures r.NullEntry? || r.Declare? || r.DeclareCursor?
    ensures forall j: nat {:trigger LastWhere(d.children, |d.children|, j, IsDeclarationNode)} :: LastWhere(d.children, |d.children|, j, IsDeclarationNode) ==>
      r == DeclarationOf(d.children[j]).value
  {
    DeclarePrefixKind(d.children, |d.children|);
    DeclarePrefixRule(d.children, |d.children|);
    DeclarePrefix(d.children, |d.children|)
  }

  // ---- the recursive family ----

  /** The specification of ParseBody. */
  function BodyStatements(b: BodyCtx): seq<Statement>
    decreases b, 3
  {
    BodyPrefix(b, |b.children|) + (if |b.handlers| > 0 then [ParseException(b)] else [])
  }

  /** ParseBody's list after the first `i` children. */
  function BodyPrefix(b: BodyCtx, i: nat): seq<Statement>
    requires i <= |b.children|
    decreases b, 2, i
  {
    if i == 0 then []
    else
      BodyPrefix(b, i - 1) +
      (match b.children[i - 1] case NSeqOfStatements(s) => ParseSeqStatement(s) case _ => [])
  }

  /** ParseException: one item per handler, in handler order, named after its first exception. */
  function ParseException(b: BodyCtx): (r: Statement)
    decreases b, 2
    ensures r.Exception? && |r.exceptionItems| == |b.handlers|
    ensures forall k :: 0 <= k < |b.handlers| ==>
      r.exceptionItems[k] == ExceptionItem(Token(b.handlers[k].firstName, General), ParseSeqStatement(b.handlers[k].statements))
  {
    Exception(seq(|b.handlers|, k requires 0 <= k < |b.handlers| =>
      ExceptionItem(Token(b.handlers[k].firstName, General), ParseSeqStatement(b.handlers[k].statements))))
  }

  /** ParseSeqStatement: the statements of each statement, in order. */
  function ParseSeqStatement(s: SeqOfStatementsCtx): seq<Statement>
    decreases s, 3
  {
    SeqPrefix(s, |s.statements|)
  }

  function SeqPrefix(s: SeqOfStatementsCtx, i: nat): seq<Statement>
    requires i <= |s.statements|
    decreases s, 2, i
  {
    if i == 0 then [] else SeqPrefix(s, i - 1) + StatementStatements(s.statements[i - 1])
  }

  /** The specification of ParseStatement. */
  function StatementStatements(st: StatementCtx): seq<Statement>
    decreases st, 3
  {
    StatementPrefix(st, |st.children|)
  }

  function StatementPrefix(st: StatementCtx, i: nat): seq<Statement>
    requires i <= |st.children|
    decreases st, 2, i
  {
    if i == 0 then [] else StatementPrefix(st, i - 1) + ChildStatements(st.children[i - 1])
  }

  /** The statements one child of a statement yields. */
  function ChildStatements(n: Node): seq<Statement>
    decreases n, 3
  {
    match n
    case NSqlStatement(sql) => ParseSqlStatement(sql)
    case NAssignment(a) => SetStatementsOf(a)
    case NIf(x) => [ParseIfStatement(x)]
    case NCase(c) => [ParseCaseStatement(c)]
    case NLoop(l) => [LoopOf(l)]
    case NFunctionCall(c) => [ParseFunctionCallStatement(c)]
    case NExit(e) => [ParseExitStatement(e)]
    case NBody(b) => BodyStatements(b)
    case NReturn(r) => [ParseReturnStatement(r)]
    case _ => []
  }

  /**
   * ParseIfStatement: an IF item, then one ELSEIF item per elsif part in order,
   * then an unconditioned ELSE item iff there is an else part.
   */
  function ParseIfStatement(x: IfStatementCtx): (r: Statement)
    decreases x, 3
    ensures r.If? && |r.items| == 1 + |x.elsifs| + (if x.elsePart.Some? then 1 else 0)
    ensures r.items[0] == IfStatementItem(IF, Some(Token(x.condition, Condition)), ParseSeqStatement(x.statements))
    ensures forall k :: 0 <= k < |x.elsifs| ==>
      r.items[k + 1] == IfStatementItem(ELSEIF, Some(Token(x.elsifs[k].condition, Condition)), ParseSeqStatement(x.elsifs[k].statements))
    ensures x.elsePart.Some? ==> r.items[|r.items| - 1] == IfStatementItem(ELSE, None, ParseSeqStatement(x.elsePart.value))
    ensures forall k :: 0 <= k < |r.items| - 1 ==> r.items[k].itemType != ELSE && r.items[k].condition.Some?
  {
    var first := IfStatementItem(IF, Some(Token(x.condition, Condition)), ParseSeqStatement(x.statements));
    var elsifs := seq(|x.elsifs|, k requires 0 <= k < |x.elsifs| =>
      IfStatementItem(ELSEIF, Some(Token(x.elsifs[k].condition, Condition)), ParseSeqStatement(x.elsifs[k].statements)));
    var last := if x.elsePart.Some? then [IfStatementItem(ELSE, None, ParseSeqStatement(x.elsePart.value))] else [];
    If([first] + elsifs + last)
  }

  /**
   * ParseCaseStatement: a simple CASE yields one IF-tagged item per WHEN in
   * order and an unconditioned ELSE item iff there is an else part; a searched
   * CASE yields no items and no variable.
   */
  function ParseCaseStatement(c: CaseStatementCtx): (r: Statement)
    decreases c, 3
    ensures r.Case?
    ensures c.simple.None? ==> r.variableName.None? && r.items == []
    ensures c.simple.Some? ==>
      var s := c.simple.value;
      && r.variableName == Some(Token(s.expression, VariableName))
      && |r.items| == |s.whens| + (if s.elsePart.Some? then 1 else 0)
      && (forall k :: 0 <= k < |s.whens| ==>
            r.items[k] == IfStatementItem(IF, Some(Token(s.whens[k].expression, Condition)), ParseSeqStatement(s.whens[k].statements)))
      && (s.elsePart.Some? ==> r.items[|r.items| - 1] == IfStatementItem(ELSE, None, ParseSeqStatement(s.elsePart.value)))
    ensures forall k :: 0 <= k < |r.items| ==> r.items[k].itemType != ELSEIF
  {
    match c.simple
    case None => Case(None, [])
    case Some(s) =>
      var whens := seq(|s.whens|, k requires 0 <= k < |s.whens| =>
        IfStatementItem(IF, Some(Token(s.whens[k].expression, Condition)), ParseSeqStatement(s.whens[k].statements)));
      var last := if s.elsePart.Some? then [IfStatementItem(ELSE, None, ParseSeqStatement(s.elsePart.value))] else [];
      Case(Some(Token(s.expression, VariableName)), whens + last)
  }

  /** The loop type a keyword terminal selects. */
  function LoopKeyword(k: TokenKind): Option<LoopType> {
    if k == TokenKind.FOR then Some(LoopType.FOR)
    else if k == TokenKind.WHILE then Some(LoopType.WHILE)
    else if k == TokenKind.LOOP then Some(LoopType.LOOP)
    else None
  }

  /** ParseLoopStatement's statement after the first `i` children. */
  function LoopPrefix(l: LoopStatementCtx, i: nat): (r: Statement)
    requires i <= |l.children|
    decreases l, 2, i
    ensures r.Loop?
  {
    if i == 0 then Loop(None, None, [])
    else
      var p := LoopPrefix(l, i - 1);
      match l.children[i - 1]
      case Terminal(k, _) => if i - 1 == 0 && LoopKeyword(k).Some? then p.(loopType := LoopKeyword(k)) else p
      case NSeqOfStatements(s) => p.(statements := p.statements + ParseSeqStatement(s))
      case NCondition(t) => p.(condition := Some(Token(t, Condition)))
      case NCursorLoopParam(t) => p.(condition := Some(Token(t, Condition)))
      case _ => p
  }

  /** The specification of ParseLoopStatement. */
  function LoopOf(l: LoopStatementCtx): (r: Statement)
    decreases l, 3
    ensures r.Loop?
  {
    LoopPrefix(l, |l.children|)
  }

  // ---- the imperative builders ----

  /** ParseLoopStatement: the child index `i` decides whether a keyword sets the loop type. */
  method ParseLoopStatement(l: LoopStatementCtx) returns (statement: Statement)
    ensures statement == LoopOf(l)
  {
    statement := Loop(None, None, []);
    var i := 0;
    while i < |l.children|
      invariant 0 <= i <= |l.children|
      invariant statement == LoopPrefix(l, i)
    {
      var child := l.children[i];
      if child.Terminal? {
        if i == 0 {
          var kind := child.kind;
          if kind == TokenKind.FOR {
            statement := statement.(loopType := Some(LoopType.FOR));
          } else if kind == TokenKind.WHILE {
            statement := statement.(loopType := Some(LoopType.WHILE));
          } else if kind == TokenKind.LOOP {
            statement := statement.(loopType := Some(LoopType.LOOP));
          }
        }
      } else if child.NSeqOfStatements? {
        statement := statement.(statements := statement.statements + ParseSeqStatement(child.seqOfStatements));
      } else if child.NCondition? {
        statement := statement.(condition := Some(Token(child.text, Condition)));
      } else if child.NCursorLoopParam? {
        statement := statement.(condition := Some(Token(child.text, Condition)));
      }
      i := i + 1;
    }
  }

  /** ParseBody: the statement lists in child order, then the exception statement. */
  method ParseBody(b: BodyCtx) returns (statements: seq<Statement>)
    ensures statements == BodyStatements(b)
  {
    statements := [];
    var i := 0;
    while i < |b.children|
      invariant 0 <= i <= |b.children|
      invariant statements == BodyPrefix(b, i)
    {
      var child := b.children[i];
      if child.NSeqOfStatements? {
        statements := statements + ParseSeqStatement(child.seqOfStatements);
      }
      i := i + 1;
    }
    if |b.handlers| > 0 {
      statements := statements + [ParseException(b)];
    }
  }

  /** ParseStatement: the dispatch over the kinds of a statement's children. */
  method ParseStatement(st: StatementCtx) returns (statements: seq<Statement>)
    ensures statements == StatementStatements(st)
  {
    statements := [];
    var i := 0;
    while i < |st.children|
      invariant 0 <= i <= |st.children|
      invariant statements == StatementPrefix(st, i)
    {
      var child := st.children[i];
      if child.NSqlStatement? {
        statements := statements + ParseSqlStatement(child.sql);
      } else if child.NAssignment? {
        var sets := ParseSetStatement(child.assignment);
        statements := statements + sets;
      } else if child.NIf? {
        statements := statements + [ParseIfStatement(child.ifStatement)];
      } else if child.NCase? {
        statements := statements + [ParseCaseStatement(child.caseStatement)];
      } else if child.NLoop? {
        var loop := ParseLoopStatement(child.loop);
        statements := statements + [loop];
      } else if child.NFunctionCall? {
        statements := statements + [ParseFunctionCallStatement(child.call)];
      } else if child.NExit? {
        statements := statements + [ParseExitStatement(child.exit)];
      } else if child.NBody? {
        var inner := ParseBody(child.body);
        statements := statements + inner;
      } else if child.NReturn? {
        statements := statements + [ParseReturnStatement(child.ret)];
      }
      i := i + 1;
    }
  }

  // ---- properties of the recursive family ----

  /** The statements of one child of a body or loop, when it is a statement list. */
  function SeqChildStatements(n: Node): seq<Statement> {
    match n
    case NSeqOfStatements(s) => ParseSeqStatement(s)
    case _ => []
  }

  lemma {:induction false} BodyPrefixIsConcat(b: BodyCtx, i: nat)
    requires i <= |b.children|
    ensures BodyPrefix(b, i) == ConcatMap(b.children[..i], SeqChildStatements)
  {
    if i > 0 {
      BodyPrefixIsConcat(b, i - 1);
      ConcatMapStep(b.children, i - 1, SeqChildStatements);
    }
  }

  /**
   * ParseBody yields the statements of each statement-list child in source
   * order, followed by exactly one exception statement iff the body has
   * handlers, holding one item per handler in handler order.
   */
  lemma ParseBodyShape(b: BodyCtx)
    ensures |b.handlers| == 0 ==> BodyStatements(b) == ConcatMap(b.children, SeqChildStatements)
    ensures |b.handlers| > 0 ==>
      var r := BodyStatements(b);
      && r[..|r| - 1] == ConcatMap(b.children, SeqChildStatements)
      && r[|r| - 1].Exception?
      && |r[|r| - 1].exceptionItems| == |b.handlers|
      && forall k :: 0 <= k < |b.handlers| ==>
           r[|r| - 1].exceptionItems[k].name == Token(b.handlers[k].firstName, General)
  {
    BodyPrefixIsConcat(b, |b.children|);
    assert b.children[..|b.children|] == b.children;
  }

  lemma {:induction false} SeqPrefixIsConcat(s: SeqOfStatementsCtx, i: nat)
    requires i <= |s.statements|
    ensures SeqPrefix(s, i) == ConcatMap(s.statements[..i], StatementStatements)
  {
    if i > 0 {
      SeqPrefixIsConcat(s, i - 1);
      ConcatMapStep(s.statements, i - 1, StatementStatements);
    }
  }

  /**
   * ParseSeqStatement concatenates, in order, what ParseStatement yields for
   * each statement of the list; appending statements appends their results.
   */
  lemma ParseSeqStatementShape(s: SeqOfStatementsCtx)
    ensures ParseSeqStatement(s) == ConcatMap(s.statements, StatementStatements)
    ensures forall a, b :: s.statements == a + b ==>
      ParseSeqStatement(s) == ConcatMap(a, StatementStatements) + ConcatMap(b, StatementStatements)
  {
    SeqPrefixIsConcat(s, |s.statements|);
    assert s.statements[..|s.statements|] == s.statements;
    forall a, b | s.statements == a + b
      ensures ParseSeqStatement(s) == ConcatMap(a, StatementStatements) + ConcatMap(b, StatementStatements)
    {
      ConcatMapAppend(a, b, StatementStatements);
    }
  }

  lemma {:induction false} StatementPrefixIsConcat(st: StatementCtx, i: nat)
    requires i <= |st.children|
    ensures StatementPrefix(st, i) == ConcatMap(st.children[..i], ChildStatements)
  {
    if i > 0 {
      StatementPrefixIsConcat(st, i - 1);
      ConcatMapStep(st.children, i - 1, ChildStatements);
    }
  }

  /**
   * ParseStatement concatenates, in child order, what each child of the
   * statement yields; a statement with no recognised child yields nothing.
   */
  lemma ParseStatementShape(st: StatementCtx)
    ensures StatementStatements(st) == ConcatMap(st.children, ChildStatements)
    ensures (forall k :: 0 <= k < |st.children| ==> ChildStatements(st.children[k]) == []) ==> StatementStatements(st) == []
  {
    StatementPrefixIsConcat(st, |st.children|);
    assert st.children[..|st.children|] == st.children;
    if forall k :: 0 <= k < |st.children| ==> ChildStatements(st.children[k]) == [] {
      ConcatMapEmpty(st.children, ChildStatements);
    }
  }

  lemma {:induction false} LoopTypePrefix(l: LoopStatementCtx, i: nat)
    requires i <= |l.children|
    ensures LoopPrefix(l, i).loopType ==
      (if i > 0 && l.children[0].Terminal? then LoopKeyword(l.children[0].kind) else None)
  {
    if i > 0 {
      LoopTypePrefix(l, i - 1);
    }
  }

  /**
   * The loop type is set iff the first child is a FOR, WHILE or LOOP terminal;
   * a labelled loop, whose first child is the label, keeps the unset default.
   */
  lemma LoopTypeRule(l: LoopStatementCtx)
    ensures LoopOf(l).loopType.Some? <==>
      |l.children| > 0 && l.children[0].Terminal? && l.children[0].kind in {TokenKind.FOR, TokenKind.WHILE, TokenKind.LOOP}
    ensures LoopOf(l).loopType.Some? ==> LoopOf(l).loopType == LoopKeyword(l.children[0].kind)
  {
    LoopTypePrefix(l, |l.children|);
  }

  /** A condition or cursor_loop_param child is the loop's condition slot. */
  predicate IsLoopCondition(n: Node) {
    n.NCondition? || n.NCursorLoopParam?
  }

  lemma LoopConditionStep(l: LoopStatementCtx, i: nat)
    requires 0 < i <= |l.children|
    ensures LoopPrefix(l, i).condition ==
      if IsLoopCondition(l.children[i - 1]) then Some(Token(TextOf(l.children[i - 1]), Condition))
      else LoopPrefix(l, i - 1).condition
  {
  }

  lemma {:induction false} LoopConditionPrefix(l: LoopStatementCtx, i: nat)
    requires i <= |l.children|
    ensures NoneWhere(l.children, i, IsLoopCondition) ==> LoopPrefix(l, i).condition.None?
    ensures forall j: nat {:trigger LastWhere(l.children, i, j, IsLoopCondition)} :: LastWhere(l.children, i, j, IsLoopCondition) ==>
      LoopPrefix(l, i).condition == Some(Token(TextOf(l.children[j]), Condition))
  {
    if i > 0 {
      var c := l.children;
      LoopConditionPrefix(l, i - 1);
      LoopConditionStep(l, i);
      if NoneWhere(c, i, IsLoopCondition) {
        NoneWhereStep(c, i, IsLoopCondition);
      }
      forall j: nat | LastWhere(c, i, j, IsLoopCondition)
        ensures LoopPrefix(l, i).condition == Some(Token(TextOf(c[j]), Condition))
      {
        LastWhereStep(c, i, j, IsLoopCondition);
      }
    }
  }

  /**
   * The loop's single condition slot holds the last WHILE condition or FOR
   * cursor/range parameter, as a condition token; a bare LOOP has none.
   */
  lemma LoopConditionRule(l: LoopStatementCtx)
    ensures NoneWhere(l.children, |l.children|, IsLoopCondition) ==> LoopOf(l).condition.None?
    ensures forall j: nat {:trigger LastWhere(l.children, |l.children|, j, IsLoopCondition)} :: LastWhere(l.children, |l.children|, j, IsLoopCondition) ==>
      LoopOf(l).condition == Some(Token(TextOf(l.children[j]), Condition))
  {
    LoopConditionPrefix(l, |l.children|);
  }

  lemma {:induction false} LoopStatementsPrefix(l: LoopStatementCtx, i: nat)
    requires i <= |l.children|
    ensures LoopPrefix(l, i).statements == ConcatMap(l.children[..i], SeqChildStatements)
  {
    if i > 0 {
      LoopStatementsPrefix(l, i - 1);
      ConcatMapStep(l.children, i - 1, SeqChildStatements);
    }
  }

  /** A loop's statements are those of its statement lists, in source order. */
  lemma LoopStatementsRule(l: LoopStatementCtx)
    ensures LoopOf(l).statements == ConcatMap(l.children, SeqChildStatements)
  {
    LoopStatementsPrefix(l, |l.children|);
    assert l.children[..|l.children|] == l.children;
  }
}
