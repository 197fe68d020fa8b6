/**
 * The four entry points, AnalyseProcedure, AnalyseFunction, AnalyseView and
 * AnalyseTrigger, with the routine parameters and the trigger classification
 * they use. Lexing and parsing are outside the model: each entry point takes
 * the syntax error the parser reported, if any, and the first unit_statement
 * of the parse tree, if any.
 */
module Scripts {
  import opened Wrappers
  import opened PlSqlTree
  import opened SqlModel
  import opened Queries
  import opened Statements

  // ---- names ----

  /**
   * The two-part name rule of every entry point: `owner.name` sets Owner to the
   * identifier and Name to the id_expression; a bare `name` sets only Name.
   */
  function TwoPartName(q: QualifiedNameCtx): (r: (Option<TokenInfo>, TokenInfo))
    ensures r.0.Some? <==> q.idExpression.Some?
    ensures q.idExpression.Some? ==> r.0 == Some(Token(q.identifier, General)) && r.1 == Token(q.idExpression.value, General)
    ensures q.idExpression.None? ==> r.1 == Token(q.identifier, General)
  {
    if q.idExpression.Some? then (Some(Token(q.identifier, General)), Token(q.idExpression.value, General))
    else (None, Token(q.identifier, General))
  }

  // ---- parameters ----

  predicate IsDirectionKeyword(n: Node) {
    n.Terminal? && n.kind in {TokenKind.IN, TokenKind.OUT, TokenKind.INOUT}
  }

  /** The direction one keyword selects: INOUT is exactly IN | OUT. */
  function KeywordDirection(k: TokenKind): (r: ParameterType)
    requires k in {TokenKind.IN, TokenKind.OUT, TokenKind.INOUT}
    ensures r.input <==> k != TokenKind.OUT
    ensures r.output <==> k != TokenKind.IN
  {
    if k == TokenKind.IN then InFlag
    else if k == TokenKind.OUT then OutFlag
    else InFlag.Or(OutFlag)
  }

  function DirectionStep(p: ParameterType, n: Node): ParameterType {
    if IsDirectionKeyword(n) then KeywordDirection(n.kind) else p
  }

  /** The specification of SetParameterType: the direction after visiting `nodes` in order. */
  function DirectionOf(nodes: seq<Node>, init: ParameterType): ParameterType {
    if |nodes| == 0 then init
    else DirectionStep(DirectionOf(nodes[..|nodes| - 1], init), nodes[|nodes| - 1])
  }

  /** With no direction keyword the initial direction is kept. */
  lemma {:induction false} NoDirectionKeywordKeepsDefault(nodes: seq<Node>, init: ParameterType)
    requires forall k :: 0 <= k < |nodes| ==> !IsDirectionKeyword(nodes[k])
    ensures DirectionOf(nodes, init) == init
  {
    if |nodes| > 0 {
      NoDirectionKeywordKeepsDefault(nodes[..|nodes| - 1], init);
    }
  }

  /** The last direction keyword among the children decides the direction. */
  lemma {:induction false} LastDirectionKeywordWins(nodes: seq<Node>, init: ParameterType, j: nat)
    requires j < |nodes| && IsDirectionKeyword(nodes[j])
    requires forall k :: j < k < |nodes| ==> !IsDirectionKeyword(nodes[k])
    ensures DirectionOf(nodes, init) == KeywordDirection(nodes[j].kind)
  {
    if j < |nodes| - 1 {
      LastDirectionKeywordWins(nodes[..|nodes| - 1], init, j);
    }
  }

  /** An INOUT parameter is both input and output. */
  lemma InOutIsBoth(nodes: seq<Node>, init: ParameterType, j: nat)
    requires j < |nodes| && nodes[j] == Terminal(TokenKind.INOUT, "INOUT")
    requires forall k :: j < k < |nodes| ==> !IsDirectionKeyword(nodes[k])
    ensures DirectionOf(nodes, init) == ParameterType(true, true)
  {
    LastDirectionKeywordWins(nodes, init, j);
  }

  /**
   * `IN OUT` written as two keywords is an output-only parameter: the OUT
   * keyword overwrites the IN before it instead of adding to it.
   */
  lemma SeparateInOutIsOutOnly(nodes: seq<Node>, init: ParameterType, j: nat)
    requires j + 1 < |nodes| && IsToken(nodes[j], TokenKind.IN) && IsToken(nodes[j + 1], TokenKind.OUT)
    requires forall k :: j + 1 < k < |nodes| ==> !IsDirectionKeyword(nodes[k])
    ensures DirectionOf(nodes, init) == OutFlag
    ensures !DirectionOf(nodes, init).input
  {
    LastDirectionKeywordWins(nodes, init, j + 1);
  }

  /** SetParameterType: each direction keyword overwrites the parameter's direction. */
  method SetParameterType(parameterInfo: Parameter, nodes: seq<Node>) returns (r: Parameter)
    ensures r == parameterInfo.(parameterType := DirectionOf(nodes, parameterInfo.parameterType))
  {
    r := parameterInfo;
    var i := 0;
    while i < |nodes|
      invariant 0 <= i <= |nodes|
      invariant r == parameterInfo.(parameterType := DirectionOf(nodes[..i], parameterInfo.parameterType))
    {
      assert nodes[..i + 1][..i] == nodes[..i];
      var child := nodes[i];
      if child.Terminal? {
        if child.kind == TokenKind.IN {
          r := r.(parameterType := InFlag);
        } else if child.kind == TokenKind.OUT {
          r := r.(parameterType := OutFlag);
        } else if child.kind == TokenKind.INOUT {
          r := r.(parameterType := InFlag.Or(OutFlag));
        }
      }
      i := i + 1;
    }
    assert nodes[..|nodes|] == nodes;
  }

  /** One routine parameter; a fresh Parameter starts without a direction. */
  function ParameterOf(p: ParameterCtx): Parameter {
    Parameter(
      Token(p.name, ParameterName),
      Token(p.typeSpec, DataType),
      p.defaultValue.Map((d: string) => Token(d, General)),
      DirectionOf(p.children, NoDirection))
  }

  /** SetRoutineParameters: one parameter per parameter node, in order. */
  function SetRoutineParameters(parameters: seq<ParameterCtx>): (r: seq<Parameter>)
    ensures |r| == |parameters|
    ensures forall k :: 0 <= k < |parameters| ==>
      && r[k].name == Token(parameters[k].name, ParameterName)
      && r[k].dataType == Token(parameters[k].typeSpec, DataType)
      && (r[k].defaultValue.Some? <==> parameters[k].defaultValue.Some?)
      && (parameters[k].defaultValue.Some? ==> r[k].defaultValue == Some(Token(parameters[k].defaultValue.value, General)))
      && r[k].parameterType == DirectionOf(parameters[k].children, NoDirection)
  {
    seq(|parameters|, k requires 0 <= k < |parameters| => ParameterOf(parameters[k]))
  }

  /** The declarations of a routine or trigger, one statement per declare_spec. */
  function DeclareStatements(declares: seq<DeclareSpecCtx>): (r: seq<Statement>)
    ensures |r| == |declares|
    ensures forall k :: 0 <= k < |declares| ==> r[k] == ParseDeclareStatement(declares[k])
  {
    seq(|declares|, k requires 0 <= k < |declares| => ParseDeclareStatement(declares[k]))
  }

  // ---- routines ----

  const EmptyProcedure := RoutineScript(PROCEDURE, None, None, [], None, [])

  const EmptyFunction := RoutineScript(FUNCTION, None, None, [], None, [])

  function ProcedureScript(proc: CreateProcedureBodyCtx): Script {
    var (owner, name) := TwoPartName(proc.name);
    RoutineScript(PROCEDURE, owner, Some(name), SetRoutineParameters(proc.parameters), None,
                  DeclareStatements(proc.declares) + BodyStatements(proc.body))
  }

  /**
   * AnalyseProcedure. The result carries the syntax error; a script exists iff
   * there is no error and there is a unit statement, and it is empty when the
   * unit is not a procedure body.
   */
  function AnalyseProcedure(error: Option<SqlSyntaxError>, unit: Option<UnitStatementCtx>): (r: AnalyseResult)
    ensures r.error == error
    ensures r.script.Some? <==> error.None? && unit.Some?
    ensures r.script.Some? ==> r.script.value.RoutineScript? && r.script.value.routineType == PROCEDURE
    ensures r.script.Some? && unit.value.procedureBody.None? ==> r.script.value == EmptyProcedure
    ensures r.script.Some? && unit.value.procedureBody.Some? ==>
      var proc := unit.value.procedureBody.value;
      && r.script.value.owner == TwoPartName(proc.name).0
      && r.script.value.name == Some(TwoPartName(proc.name).1)
      && r.script.value.parameters == SetRoutineParameters(proc.parameters)
      && r.script.value.statements == DeclareStatements(proc.declares) + BodyStatements(proc.body)
  {
    var result := AnalyseResult(error, None);
    if !result.HasError() && unit.Some? then
      result.(script := Some(match unit.value.procedureBody
                             case Some(proc) => ProcedureScript(proc)
                             case None => EmptyProcedure))
    else result
  }

  function FunctionScript(func: CreateFunctionBodyCtx): Script {
    var (owner, name) := TwoPartName(func.name);
    RoutineScript(FUNCTION, owner, Some(name), SetRoutineParameters(func.parameters), Some(Token(func.returnType, DataType)),
                  DeclareStatements(func.declares) + BodyStatements(func.body))
  }

  /** AnalyseFunction: as AnalyseProcedure, with the return type as a data type token. */
  function AnalyseFunction(error: Option<SqlSyntaxError>, unit: Option<UnitStatementCtx>): (r: AnalyseResult)
    ensures r.error == error
    ensures r.script.Some? <==> error.None? && unit.Some?
    ensures r.script.Some? ==> r.script.value.RoutineScript? && r.script.value.routineType == FUNCTION
    ensures r.script.Some? && unit.value.functionBody.None? ==> r.script.value == EmptyFunction
    ensures r.script.Some? && unit.value.functionBody.Some? ==>
      var func := unit.value.functionBody.value;
      && r.script.value.owner == TwoPartName(func.name).0
      && r.script.value.name == Some(TwoPartName(func.name).1)
      && r.script.value.parameters == SetRoutineParameters(func.parameters)
      && r.script.value.returnDataType == Some(Token(func.returnType, DataType))
      && r.script.value.statements == DeclareStatements(func.declares) + BodyStatements(func.body)
  {
    var result := AnalyseResult(error, None);
    if !result.HasError() && unit.Some? then
      result.(script := Some(match unit.value.functionBody
                             case Some(func) => FunctionScript(func)
                             case None => EmptyFunction))
    else result
  }

  // ---- views ----

  /** The select statement a select_only_statement child of a view yields. */
  function ViewStatementOf(n: Node): Statement {
    match n
    case NSelectOnly(q) => Select(ParseSelectOnlyStatement(q))
    case _ => NullEntry
  }

  function ViewChild(n: Node): seq<Statement> {
    if IsSelectOnlyNode(n) then [ViewStatementOf(n)] else []
  }

  function ViewScriptOf(view: CreateViewCtx): (r: Script)
    ensures r.ViewScript?
    ensures |r.statements| == |Filter(view.children, IsSelectOnlyNode)|
    ensures forall k :: 0 <= k < |r.statements| ==>
      r.statements[k] == Select(ParseSelectOnlyStatement(Filter(view.children, IsSelectOnlyNode)[k].selectOnly))
  {
    ConcatMapFilter(view.children, ViewChild, IsSelectOnlyNode, ViewStatementOf);
    var (owner, name) := TwoPartName(view.name);
    ViewScript(owner, Some(name), ConcatMap(view.children, ViewChild))
  }

  /**
   * AnalyseView: one select statement per select_only_statement child of the
   * view, in child order, each the select that child parses to.
   */
  function AnalyseView(error: Option<SqlSyntaxError>, unit: Option<UnitStatementCtx>): (r: AnalyseResult)
    ensures r.error == error
    ensures r.script.Some? <==> error.None? && unit.Some?
    ensures r.script.Some? ==> r.script.value.ViewScript?
    ensures r.script.Some? && unit.value.view.None? ==> r.script.value == ViewScript(None, None, [])
    ensures r.script.Some? && unit.value.view.Some? ==>
      var view := unit.value.view.value;
      && r.script.value.owner == TwoPartName(view.name).0
      && r.script.value.name == Some(TwoPartName(view.name).1)
      && |r.script.value.statements| == |Filter(view.children, IsSelectOnlyNode)|
      && forall k :: 0 <= k < |r.script.value.statements| ==>
           r.script.value.statements[k] == Select(ParseSelectOnlyStatement(Filter(view.children, IsSelectOnlyNode)[k].selectOnly))
  {
    var result := AnalyseResult(error, None);
    if !result.HasError() && unit.Some? then
      result.(script := Some(match unit.value.view
                             case Some(view) => ViewScriptOf(view)
                             case None => ViewScript(None, None, [])))
    else result
  }

  // ---- triggers ----

  /** The event texts Enum.Parse accepts, case-sensitively. */
  predicate ValidTriggerEvent(text: string) {
    text in {"INSERT", "UPDATE", "DELETE"}
  }

  function TriggerEventOf(text: string): (r: TriggerEvent)
    requires ValidTriggerEvent(text)
    ensures text == "INSERT" <==> r == INSERT
    ensures text == "UPDATE" <==> r == UPDATE
    ensures text == "DELETE" <==> r == DELETE
  {
    if text == "INSERT" then INSERT else if text == "UPDATE" then UPDATE else DELETE
  }

  /** Every event of a simple DML trigger names a TriggerEvent member exactly. */
  predicate EventsParse(unit: Option<UnitStatementCtx>) {
    unit.Some? && unit.value.trigger.Some? && unit.value.trigger.value.simpleDml.Some? ==>
      forall k :: 0 <= k < |unit.value.trigger.value.simpleDml.value.events| ==>
        ValidTriggerEvent(unit.value.trigger.value.simpleDml.value.events[k])
  }

  /** The time a terminal child of the trigger selects, if any. */
  function TimeKeyword(n: Node): Option<TriggerTime> {
    if IsToken(n, TokenKind.BEFORE) then Some(TriggerTime.BEFORE)
    else if IsToken(n, TokenKind.AFTER) then Some(TriggerTime.AFTER)
    else if IsToken(n, TokenKind.INSTEAD) then Some(INSTEAD_OF)
    else None
  }

  /** The trigger time after visiting `children` in order, starting unset. */
  function TriggerTimeOf(children: seq<Node>): Option<TriggerTime> {
    if |children| == 0 then None
    else
      var t := TimeKeyword(children[|children| - 1]);
      if t.Some? then t else TriggerTimeOf(children[..|children| - 1])
  }

  /**
   * The last BEFORE, AFTER or INSTEAD terminal decides the trigger time; with
   * none the time stays unset.
   */
  lemma {:induction false} TriggerTimeRule(children: seq<Node>)
    ensures TriggerTimeOf(children).None? <==> forall k :: 0 <= k < |children| ==> TimeKeyword(children[k]).None?
    ensures forall j :: 0 <= j < |children| && TimeKeyword(children[j]).Some? &&
                        (forall k :: j < k < |children| ==> TimeKeyword(children[k]).None?) ==>
                        TriggerTimeOf(children) == TimeKeyword(children[j])
  {
    if |children| > 0 {
      var init := children[..|children| - 1];
      TriggerTimeRule(init);
      assert forall k :: 0 <= k < |init| ==> init[k] == children[k];
    }
  }

  function TriggerScriptOf(trigger: CreateTriggerCtx): Script
    requires trigger.simpleDml.Some? ==> forall k :: 0 <= k < |trigger.simpleDml.value.events| ==> ValidTriggerEvent(trigger.simpleDml.value.events[k])
  {
    var (owner, name) := TwoPartName(trigger.name);
    match trigger.simpleDml
    case Some(dml) =>
      TriggerScript(owner, Some(name), Some(Token(dml.tableview.text, TableName)),
                    seq(|dml.events|, k requires 0 <= k < |dml.events| => TriggerEventOf(dml.events[k])),
                    TriggerTimeOf(trigger.children),
                    trigger.whenCondition.Map((c: string) => Token(c, Condition)),
                    DeclareStatements(trigger.block.declares) + BodyStatements(trigger.block.body))
    case None =>
      TriggerScript(owner, Some(name), None, [], None,
                    trigger.whenCondition.Map((c: string) => Token(c, Condition)),
                    DeclareStatements(trigger.block.declares) + BodyStatements(trigger.block.body))
  }

  /**
   * AnalyseTrigger. A simple DML trigger gets its table, one event per event
   * element in order, and the time of its last timing keyword; any other
   * trigger keeps them unset.
   */
  function AnalyseTrigger(error: Option<SqlSyntaxError>, unit: Option<UnitStatementCtx>): (r: AnalyseResult)
    requires error.None? ==> EventsParse(unit)
    ensures r.error == error
    ensures r.script.Some? <==> error.None? && unit.Some?
    ensures r.script.Some? ==> r.script.value.TriggerScript?
    ensures r.script.Some? && unit.value.trigger.None? ==> r.script.value == TriggerScript(None, None, None, [], None, None, [])
    ensures r.script.Some? && unit.value.trigger.Some? ==>
      var trigger := unit.value.trigger.value;
      var s := r.script.value;
      && s.owner == TwoPartName(trigger.name).0
      && s.name == Some(TwoPartName(trigger.name).1)
      && (s.triggerTable.Some? <==> trigger.simpleDml.Some?)
      && (trigger.simpleDml.Some? ==> s.triggerTable == Some(Token(trigger.simpleDml.value.tableview.text, TableName)))
      && (trigger.simpleDml.None? ==> s.events == [] && s.time.None?)
      && (trigger.simpleDml.Some? ==>
            && |s.events| == |trigger.simpleDml.value.events|
            && (forall k :: 0 <= k < |s.events| ==> s.events[k] == TriggerEventOf(trigger.simpleDml.value.events[k]))
            && s.time == TriggerTimeOf(trigger.children))
      && (s.triggerCondition.Some? <==> trigger.whenCondition.Some?)
      && (trigger.whenCondition.Some? ==> s.triggerCondition == Some(Token(trigger.whenCondition.value, Condition)))
      && s.statements == DeclareStatements(trigger.block.declares) + BodyStatements(trigger.block.body)
  {
    var result := AnalyseResult(error, None);
    if !result.HasError() && unit.Some? then
      result.(script := Some(match unit.value.trigger
                             case Some(trigger) => TriggerScriptOf(trigger)
                             case None => TriggerScript(None, None, None, [], None, None, [])))
    else result
  }
}
