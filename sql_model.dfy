/**
 * The dialect-independent statement model the analyser produces: typed tokens,
 * statements, queries, scripts and the analysis result. All of it is built once
 * per unit and read-only afterwards, so it is modelled as values.
 */
module SqlModel {
  import opened Wrappers

  /** The semantic role of a token's text. */
  datatype TokenType =
    | TableName | ColumnName | VariableName | RoutineName | CursorName | ParameterName
    | DataType | Condition | OrderBy | GroupBy | General

  /**
   * A TokenInfo. `Token` wraps the text of a node; `NullNodeToken` is a TokenInfo
   * built from an absent node (`new TokenInfo(null)`), whose text is unset;
   * `Table` and `Column` are the TableName and ColumnName specialisations.
   */
  datatype TokenInfo =
    | Token(symbol: string, tokenType: TokenType)
    | NullNodeToken(tokenType: TokenType)
    | Table(symbol: string, name: Option<TokenInfo>, alias: Option<TokenInfo>)
    | Column(symbol: string, name: Option<TokenInfo>, tableName: Option<TokenInfo>, alias: Option<TokenInfo>)

  type TableNameToken = t: TokenInfo | t.Table? witness Table("", None, None)

  type ColumnNameToken = t: TokenInfo | t.Column? witness Column("", None, None, None)

  /** The Type tag of a token. */
  function TypeOf(t: TokenInfo): TokenType {
    match t
    case Token(_, ty) => ty
    case NullNodeToken(ty) => ty
    case Table(_, _, _) => TableName
    case Column(_, _, _, _) => ColumnName
  }

  /** `new TokenInfo(node) { Type = ty }` for a node that may be absent. */
  function TokenOfNode(node: Option<string>, ty: TokenType): (t: TokenInfo)
    ensures TypeOf(t) == ty
    ensures t.Token? <==> node.Some?
    ensures node.Some? ==> t.symbol == node.value
  {
    match node
    case Some(text) => Token(text, ty)
    case None => NullNodeToken(ty)
  }

  /** `ParseToken(node, ty)` of the analyser's base class: the node's text with a role. */
  function ParseToken(text: string, ty: TokenType): TokenInfo {
    Token(text, ty)
  }

  // ---- parameters ----

  /** The ParameterType flags enumeration: a bit set over {IN, OUT}. */
  datatype ParameterType = ParameterType(input: bool, output: bool) {
    /** The bitwise or of two flag values. */
    function Or(other: ParameterType): ParameterType {
      ParameterType(input || other.input, output || other.output)
    }
  }

  const NoDirection := ParameterType(false, false)
  const InFlag := ParameterType(true, false)
  const OutFlag := ParameterType(false, true)

  datatype Parameter = Parameter(
    name: TokenInfo,
    dataType: TokenInfo,
    defaultValue: Option<TokenInfo>,
    parameterType: ParameterType)

  // ---- queries ----

  datatype UnionType = UNION | UNION_ALL

  datatype JoinType = LEFT | RIGHT | FULL | CROSS | PIVOT | UNPIVOT

  datatype LimitInfo = LimitInfo(startRowIndex: Option<TokenInfo>, rowCount: Option<TokenInfo>)

  datatype PivotItem = PivotItem(
    aggregationFunctionName: TokenInfo,
    aggregatedColumnName: TokenInfo,
    columnName: Option<ColumnNameToken>,
    values: seq<TokenInfo>)

  datatype UnPivotItem = UnPivotItem(
    valueColumnName: Option<ColumnNameToken>,
    forColumnName: Option<ColumnNameToken>,
    inColumnNames: seq<Option<ColumnNameToken>>)

  /** A JoinItem; `joinType` is `None` while the field keeps its initial value. */
  datatype JoinItem = JoinItem(
    joinType: Option<JoinType>,
    tableName: Option<TableNameToken>,
    condition: Option<TokenInfo>,
    pivotItem: Option<PivotItem>,
    unPivotItem: Option<UnPivotItem>)

  datatype FromItem = FromItem(tableName: Option<TableNameToken>, joinItems: seq<JoinItem>)

  /**
   * A SelectStatement. The `Option` fields are `None` while the analyser has not
   * assigned them (their initial value).
   */
  datatype SelectStatement = SelectStatement(
    columns: seq<Option<ColumnNameToken>>,
    fromItems: seq<FromItem>,
    intoTableName: Option<TokenInfo>,
    where: Option<TokenInfo>,
    groupBy: Option<seq<TokenInfo>>,
    having: Option<TokenInfo>,
    orderBy: Option<seq<TokenInfo>>,
    limitInfo: Option<LimitInfo>,
    withStatements: Option<seq<WithStatement>>,
    unionStatements: Option<seq<UnionStatement>>)

  datatype WithStatement = WithStatement(name: TokenInfo, selectStatements: seq<SelectStatement>)

  datatype UnionStatement = UnionStatement(unionType: UnionType, selectStatement: SelectStatement)

  /** `new SelectStatement()`. */
  const EmptySelect := SelectStatement([], [], None, None, None, None, None, None, None, None)

  // ---- statements ----

  datatype IfStatementType = IF | ELSEIF | ELSE

  datatype LoopType = FOR | WHILE | LOOP

  datatype IfStatementItem = IfStatementItem(itemType: IfStatementType, condition: Option<TokenInfo>, statements: seq<Statement>)

  datatype ExceptionItem = ExceptionItem(name: TokenInfo, statements: seq<Statement>)

  datatype NameValueItem = NameValueItem(name: TokenInfo, value: TokenInfo)

  /**
   * The Statement variants. `NullEntry` is the null reference ParseDeclareStatement
   * returns for a declaration it does not recognise, which the entry points then
   * add to the script's statement list.
   */
  datatype Statement =
    | Select(select: SelectStatement)
    | Insert(tableName: Option<TableNameToken>, columns: seq<Option<ColumnNameToken>>, values: seq<TokenInfo>)
    | Update(tableNames: seq<Option<TableNameToken>>, setItems: seq<NameValueItem>, condition: Option<TokenInfo>)
    | Delete(tableName: Option<TableNameToken>, condition: Option<TokenInfo>)
    | If(items: seq<IfStatementItem>)
    | Case(variableName: Option<TokenInfo>, items: seq<IfStatementItem>)
    | Loop(loopType: Option<LoopType>, condition: Option<TokenInfo>, statements: seq<Statement>)
    | LoopExit(condition: Option<TokenInfo>)
    | Return(returnValue: TokenInfo)
    | Leave(content: TokenInfo)
    | Call(name: TokenInfo, arguments: seq<TokenInfo>)
    | Print(content: TokenInfo)
    | Declare(name: TokenInfo, dataType: TokenInfo, defaultValue: Option<TokenInfo>)
    | DeclareCursor(cursorName: TokenInfo, selectStatement: SelectStatement)
    | OpenCursor(cursorName: TokenInfo)
    | FetchCursor(cursorName: TokenInfo, variables: seq<TokenInfo>)
    | CloseCursor(cursorName: TokenInfo, isEnd: bool)
    | Set(key: TokenInfo, value: Option<TokenInfo>)
    | Exception(exceptionItems: seq<ExceptionItem>)
    | NullEntry

  // ---- scripts and results ----

  datatype RoutineType = PROCEDURE | FUNCTION

  datatype TriggerEvent = INSERT | UPDATE | DELETE

  datatype TriggerTime = BEFORE | AFTER | INSTEAD_OF

  /**
   * The CommonScript family. `owner` and `name` are `None` until assigned;
   * `time` likewise.
   */
  datatype Script =
    | RoutineScript(
        routineType: RoutineType,
        owner: Option<TokenInfo>,
        name: Option<TokenInfo>,
        parameters: seq<Parameter>,
        returnDataType: Option<TokenInfo>,
        statements: seq<Statement>)
    | ViewScript(owner: Option<TokenInfo>, name: Option<TokenInfo>, statements: seq<Statement>)
    | TriggerScript(
        owner: Option<TokenInfo>,
        name: Option<TokenInfo>,
        triggerTable: Option<TokenInfo>,
        events: seq<TriggerEvent>,
        time: Option<TriggerTime>,
        triggerCondition: Option<TokenInfo>,
        statements: seq<Statement>)

  datatype SqlSyntaxError = SqlSyntaxError(line: int, column: int, message: string)

  datatype AnalyseResult = AnalyseResult(error: Option<SqlSyntaxError>, script: Option<Script>) {
    predicate HasError() {
      error.Some?
    }
  }
}
