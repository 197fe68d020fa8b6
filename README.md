# PL/SQL rule analyser, modelled in Dafny

This project models the Oracle PL/SQL rule analyser of DatabaseManager's SQL
analyser (`PlSqlRuleAnalyser`). The analyser walks an ANTLR parse tree of one
PL/SQL unit and reduces it to the dialect-independent statement model:

- a routine, view or trigger script;
- the statements inside it (declare, set, if, case, loop, exit, return,
  call/print, the DML statements, cursor open/fetch/close, exception);
- the select queries those statements contain, with their columns, from items,
  joins, pivots, WITH elements, UNION branches and row limits;
- the typed table, column and routine name tokens.

The model has eight files:

- `wrappers.dfy`: `Option`.
- `text.dfy` (module `Text`): ordinal case-insensitive substring search.
- `parse_tree.dfy` (module `PlSqlTree`): the parse tree.
  - There is one datatype per parser context the analyser reads.
  - A `Node` sum stands for the heterogeneous `children` lists that the analyser
    dispatches on by runtime type.
  - Every node carries its `GetText()` text.
- `sql_model.dfy` (`SqlModel`): the output model (tokens, statements, select
  statements, scripts, the analysis result), as values.
- `name_resolution.dfy` (`NameResolution`): ParseTableName, ParseColumnName,
  ParseCondition, IsFunction, IsChildOfType and the Get...Tokens adapters.
- `queries.dfy` (`Queries`): the three layers of query construction
  (select statement, select-only statement / subquery, subquery basic elements)
  and the from clause.
- `statements.dfy` (`Statements`): statement dispatch and every statement
  builder.
- `scripts.dfy` (`Scripts`): the four entry points, routine parameters, trigger
  events and trigger time.

The analyser is sequential and builds each result once, so the output model is
made of values. Where the source accumulates a result in a loop, the model has
two parts:

- a `method` with a `while` loop;
- a specification function, usually a prefix fold `XPrefix(node, i)` over the
  first `i` children.

The method is proved equal to its function, and the lemmas state what the
function means. Examples:

- the last declaration wins;
- the UNION keyword must come before the branch;
- a WITH element counts only after the WITH keyword;
- the loop keyword counts only at child 0;
- the last direction keyword wins.

Expression-shaped code (the name resolution functions, the if/case builders, the
entry points) is plain functions whose `ensures` state the result's shape.

How inputs are modelled:

- Lexing and parsing are outside the model. Each entry point takes the syntax
  error the parser reported (an `Option<SqlSyntaxError>`) and the first
  unit_statement of the tree (an `Option<UnitStatementCtx>`).
- Token codes such as `PlSqlParser.IN` become the abstract `TokenKind` values.
- `IsChildOfType`'s walk up the parent links becomes a list of the kinds of the
  node's ancestors, nearest first.

Behaviour of the code that a reader might not expect, which the model follows:

- When the tree has no unit_statement and there is no syntax error, the result
  has neither a script nor an error.
- A simple CASE statement tags its WHEN items `IF`, not `ELSEIF`.
- A searched CASE statement yields no items at all.
- The join type is matched case-sensitively against the text (`"LEFT"`), so a
  join written in lower case keeps no join type.
- `IN OUT` written as two keywords gives an output-only parameter, because each
  direction keyword overwrites the direction (SeparateInOutIsOutOnly).
- The trigger time is taken from the terminal children of the create_trigger
  node itself, not of the simple_dml_trigger node. The grammar is not part of
  this model; the loop is modelled as written.
- A function call's argument list and a FETCH clause's expression are optional,
  as in Oracle's grammar. A print call without arguments prints the null-node
  token, and a FETCH clause without an expression gives the null-node token as
  the row count.

## Model

| member | source | states |
|---|---|---|
| NameResolution.AsRuleContext | DatabaseConverter/SqlAnalyser.Core/RuleAnalyser/PlSqlRuleAnalyser.cs:1395 | a terminal node is not a rule context and becomes null; any other node passes through unchanged |
| NameResolution.ParseTableName | DatabaseConverter/SqlAnalyser.Core/RuleAnalyser/PlSqlRuleAnalyser.cs:1234-1288 | null gives null; an unrecognised shape gives null exactly in strict mode, and otherwise a table named by the node's text; every recognised shape except a table_ref_list with no table_ref gives a table name, even in strict mode. A tableview_name or table_ref_aux_internal_one gives a bare table named by its text; a general_table_ref gives a table named by its text, with the tableview_name of its dml_table_expression_clause as the Name (a null-node token without one) and its alias; a table_ref_aux gives a table named by its text, with its table_ref_aux_internal as the Name and its alias |
| NameResolution.IsChildOfType | DatabaseConverter/SqlAnalyser.Core/RuleAnalyser/PlSqlRuleAnalyser.cs:1419-1434 | true exactly when some ancestor of the node has the given kind |
| NameResolution.ParseColumnName | DatabaseConverter/SqlAnalyser.Core/RuleAnalyser/PlSqlRuleAnalyser.cs:1290-1361 | null gives null; lenient mode always gives a column; strict mode gives a column exactly for a column_name with an id or identifier, a select_list_elements, or a general_element_part below a select_list_elements. A column_name is named by its first id, with that id as its Name token, or else by its identifier, with the identifier as a nested column Name. A select_list_elements is named by its text, with the table and alias of its expression exactly when present. A recognised general_element_part is named by its second id, or its first when it has only one. The fallback column is named by the node's text |
| NameResolution.ParseCondition | DatabaseConverter/SqlAnalyser.Core/RuleAnalyser/PlSqlRuleAnalyser.cs:1363-1376 | a condition, where_clause or expression node, and only those, gives a Condition token holding the node's text |
| NameResolution.HasFunctionArgument | DatabaseConverter/SqlAnalyser.Core/RuleAnalyser/PlSqlRuleAnalyser.cs:1384 | true exactly when some child is a function_argument |
| NameResolution.IsFunction | DatabaseConverter/SqlAnalyser.Core/RuleAnalyser/PlSqlRuleAnalyser.cs:1378-1389 | a node is a function exactly when it is a standard function, or a general_element_part with a function_argument child |
| NameResolution.GetTableNameTokens | DatabaseConverter/SqlAnalyser.Core/RuleAnalyser/PlSqlRuleAnalyser.cs:1391-1403 | at most one token; empty exactly when strict ParseTableName gives null, which is exactly when the node has no table shape or is a table_ref_list with no table_ref; otherwise that table name |
| NameResolution.GetColumnNameTokens | DatabaseConverter/SqlAnalyser.Core/RuleAnalyser/PlSqlRuleAnalyser.cs:1405-1417 | at most one token; empty exactly when the node is not a recognised column shape; otherwise the strict column name |
| NameResolution.GetRoutineNameTokens | DatabaseConverter/SqlAnalyser.Core/RuleAnalyser/PlSqlRuleAnalyser.cs:1436-1453 | one token exactly for a function-call general_element_part with ids, namely its last id typed RoutineName; none otherwise |
| NameResolution.StrictFlagDropIsUnobservable | DatabaseConverter/SqlAnalyser.Core/RuleAnalyser/PlSqlRuleAnalyser.cs:1272-1279 | the table_ref_list and table_ref cases call themselves without passing `strict` on, and the result is the same in both modes |
| NameResolution.TableRefListResolvesThroughFirst | DatabaseConverter/SqlAnalyser.Core/RuleAnalyser/PlSqlRuleAnalyser.cs:1264-1284 | a table_ref_list resolves to the table name of the table_ref_aux of its first table_ref, and to null when it has none |
| NameResolution.TableRefResolvesThroughAux | DatabaseConverter/SqlAnalyser.Core/RuleAnalyser/PlSqlRuleAnalyser.cs:1264-1279 | a table_ref resolves to the table, internal name and alias of its table_ref_aux |
| NameResolution.ColumnNameIgnoresAncestors | DatabaseConverter/SqlAnalyser.Core/RuleAnalyser/PlSqlRuleAnalyser.cs:1290-1361 | only a general_element_part's column name depends on where the node sits in the tree |
| NameResolution.GeneralElementColumnNeedsSelectList | DatabaseConverter/SqlAnalyser.Core/RuleAnalyser/PlSqlRuleAnalyser.cs:1334-1351 | a general_element_part with ids names a column exactly when some ancestor is a select_list_elements |
| Queries.SelectColumns | DatabaseConverter/SqlAnalyser.Core/RuleAnalyser/PlSqlRuleAnalyser.cs:831-845 | one column per select_list_elements in order, each the lenient ParseColumnName of that element and so named by its text; with none, the whole selected list becomes the single column |
| Queries.Tokens | DatabaseConverter/SqlAnalyser.Core/RuleAnalyser/PlSqlRuleAnalyser.cs:1010 | one token of the given type per element, in order |
| Queries.IntoTableOf | DatabaseConverter/SqlAnalyser.Core/RuleAnalyser/PlSqlRuleAnalyser.cs:849-854 | the INTO part is present exactly when there is an INTO clause, and is then its first variable as a TableName token |
| Queries.WhereOf | DatabaseConverter/SqlAnalyser.Core/RuleAnalyser/PlSqlRuleAnalyser.cs:856-863 | the WHERE part is present exactly when there is a WHERE clause with an expression, and is then that expression as a Condition token |
| Queries.OrderByOf | DatabaseConverter/SqlAnalyser.Core/RuleAnalyser/PlSqlRuleAnalyser.cs:865-873 | the ORDER BY part is present exactly when there is an ORDER BY clause with at least one element, and is then one OrderBy token per element, in order |
| Queries.GroupByOf | DatabaseConverter/SqlAnalyser.Core/RuleAnalyser/PlSqlRuleAnalyser.cs:875-883 | the GROUP BY part is present exactly when there is a GROUP BY clause with at least one element, and is then one GroupBy token per element, in order |
| Queries.HavingOf | DatabaseConverter/SqlAnalyser.Core/RuleAnalyser/PlSqlRuleAnalyser.cs:875-888 | the HAVING part is present exactly when the GROUP BY clause has a HAVING clause, and is then its condition as a Condition token |
| Queries.ParseSubQueryBasic | DatabaseConverter/SqlAnalyser.Core/RuleAnalyser/PlSqlRuleAnalyser.cs:825-892 | the columns and from items of the query block; INTO, WHERE, ORDER BY, GROUP BY and HAVING are each present exactly when their clause is (with non-empty elements for ORDER BY and GROUP BY). INTO is the first variable as a TableName token, WHERE and HAVING the condition's text as a Condition token, ORDER BY and GROUP BY one typed token per element in order; no limit, WITH or UNION part |
| Queries.JoinTypeOf | DatabaseConverter/SqlAnalyser.Core/RuleAnalyser/PlSqlRuleAnalyser.cs:956-972 | a join type is set exactly for the texts LEFT, RIGHT, FULL and CROSS, and is never PIVOT or UNPIVOT |
| Queries.ColumnOf | DatabaseConverter/SqlAnalyser.Core/RuleAnalyser/PlSqlRuleAnalyser.cs:1290-1361 | an optional column_name gives a column exactly when present: its first id with that id as its Name token, else its identifier with the identifier as a nested column Name, else a bare column of its text |
| Queries.JoinItemOf | DatabaseConverter/SqlAnalyser.Core/RuleAnalyser/PlSqlRuleAnalyser.cs:954-977 | the join's type from its outer_join_type text; its table named by the table_ref_aux's text, with its table_ref_aux_internal as the Name and its alias; its condition from the first ON part, present exactly when there is one; no pivot payload |
| Queries.ParsePivot | DatabaseConverter/SqlAnalyser.Core/RuleAnalyser/PlSqlRuleAnalyser.cs:999-1013 | the aggregate function and aggregated column of the first pivot element; the FOR column exactly when present, as the whole column ParseColumnName gives a column_name: its first id with that id as its Name token, else its identifier with the identifier as a nested column Name, else its text; one value token per IN element |
| Queries.ParseUnPivot | DatabaseConverter/SqlAnalyser.Core/RuleAnalyser/PlSqlRuleAnalyser.cs:1015-1023 | the value and FOR columns exactly when present; one IN column per IN element, present exactly when that element has a column; every column is the whole column ParseColumnName gives a column_name: its first id with that id as its Name token, else its identifier with the identifier as a nested column Name, else its text |
| Queries.FromClauseShape | DatabaseConverter/SqlAnalyser.Core/RuleAnalyser/PlSqlRuleAnalyser.cs:937-994 | one from item per table_ref, named through its table_ref_aux. With joins, one join item per join, in order, each the JoinItemOf of that join; otherwise a single PIVOT item carrying ParsePivot of the pivot clause, or a single UNPIVOT item carrying ParseUnPivot of the unpivot clause, or no join item |
| Queries.JoinTypeIsCaseSensitive | DatabaseConverter/SqlAnalyser.Core/RuleAnalyser/PlSqlRuleAnalyser.cs:958-972 | `LEFT` sets the type and `left` sets none |
| Queries.ParseFormClause | DatabaseConverter/SqlAnalyser.Core/RuleAnalyser/PlSqlRuleAnalyser.cs:933-997 | the nested loops build exactly the from items of FromClauseShape |
| Queries.UnionFlagsPrefix | DatabaseConverter/SqlAnalyser.Core/RuleAnalyser/PlSqlRuleAnalyser.cs:901-916 | after each prefix of the children, the union flag is set exactly when a UNION token came before, and the type is UNION ALL exactly when an ALL token came before |
| Queries.UnionRulePrefix | DatabaseConverter/SqlAnalyser.Core/RuleAnalyser/PlSqlRuleAnalyser.cs:901-928 | after each prefix of the children: the union flag is set exactly when a UNION token came before, the type is UNION ALL exactly when an ALL token came before, and a branch exists exactly when some basic element follows a UNION token, in which case it is built from such an element |
| Queries.UnionBranchRule | DatabaseConverter/SqlAnalyser.Core/RuleAnalyser/PlSqlRuleAnalyser.cs:894-931 | an operation part yields a branch exactly when a basic element follows a UNION token, and the branch is built from such an element |
| Queries.UnionLastBranchPrefix | DatabaseConverter/SqlAnalyser.Core/RuleAnalyser/PlSqlRuleAnalyser.cs:901-928 | after each prefix of the children, the branch is that of the last basic element following a UNION token, because each such element overwrites it |
| Queries.UnionLastBranchRule | DatabaseConverter/SqlAnalyser.Core/RuleAnalyser/PlSqlRuleAnalyser.cs:894-931 | an operation part's branch is the one built from its last basic element following a UNION token, typed UNION ALL exactly when an ALL token came before that element |
| Queries.NoUnionTokenNoBranch | DatabaseConverter/SqlAnalyser.Core/RuleAnalyser/PlSqlRuleAnalyser.cs:909-926 | without a UNION token an operation part yields no branch |
| Queries.ParseSubQueryOperation | DatabaseConverter/SqlAnalyser.Core/RuleAnalyser/PlSqlRuleAnalyser.cs:894-931 | the loop computes the branch that UnionBranchRule characterises |
| Queries.UnionBranches | DatabaseConverter/SqlAnalyser.Core/RuleAnalyser/PlSqlRuleAnalyser.cs:757-772 | at most one branch per operation part; which operation parts yield one, and in what order, is stated by UnionBranchesSingle, UnionBranchesConcat and UnionBranchesNonEmpty |
| Queries.UnionBranchesSingle | DatabaseConverter/SqlAnalyser.Core/RuleAnalyser/PlSqlRuleAnalyser.cs:757-772 | a single operation part contributes exactly its own branch, or nothing when it yields none |
| Queries.UnionBranchesConcat | DatabaseConverter/SqlAnalyser.Core/RuleAnalyser/PlSqlRuleAnalyser.cs:757-781 | branches are collected in operation order: the branches of two lists joined together are the branches of each, concatenated |
| Queries.UnionBranchesNonEmpty | DatabaseConverter/SqlAnalyser.Core/RuleAnalyser/PlSqlRuleAnalyser.cs:757-781 | there is a branch exactly when some operation part yields one |
| Queries.ParseSubQuery | DatabaseConverter/SqlAnalyser.Core/RuleAnalyser/PlSqlRuleAnalyser.cs:751-785 | the first branch's basic elements decide everything except the UNION list; the UNION list is present exactly when some operation part yields a branch, and holds them all in order |
| Queries.FactoringFlagPrefix | DatabaseConverter/SqlAnalyser.Core/RuleAnalyser/PlSqlRuleAnalyser.cs:793-801 | after each prefix of the children, the WITH flag is set exactly when a WITH token came before |
| Queries.FactoringPrefixRule | DatabaseConverter/SqlAnalyser.Core/RuleAnalyser/PlSqlRuleAnalyser.cs:793-820 | after each prefix of the children, the WITH flag is set exactly when a WITH token came before, and the list holds exactly the factoring elements that follow a WITH token, in order (null while empty) |
| Queries.WithStatementsRule | DatabaseConverter/SqlAnalyser.Core/RuleAnalyser/PlSqlRuleAnalyser.cs:787-823 | the WITH statements are the factoring elements after the WITH keyword, in order; null when there are none |
| Queries.ParseSubQueryFactoringCause | DatabaseConverter/SqlAnalyser.Core/RuleAnalyser/PlSqlRuleAnalyser.cs:787-823 | the loop computes the list that WithStatementsRule characterises |
| Queries.SelectOnlyPrefix | DatabaseConverter/SqlAnalyser.Core/RuleAnalyser/PlSqlRuleAnalyser.cs:726-741 | the statement slot of the loop never carries a WITH list or a limit of its own; the WITH list is kept apart until the end |
| Queries.SelectOnlyStatementLast | DatabaseConverter/SqlAnalyser.Core/RuleAnalyser/PlSqlRuleAnalyser.cs:726-731 | the last subquery child among a prefix of the children supplies the statement slot, since each later subquery overwrites it |
| Queries.SelectOnlyStatementPrefix | DatabaseConverter/SqlAnalyser.Core/RuleAnalyser/PlSqlRuleAnalyser.cs:726-731 | after each prefix of the children, the statement slot holds the select of the last subquery child seen, or the new empty select when there was none |
| Queries.SelectOnlyWithPrefix | DatabaseConverter/SqlAnalyser.Core/RuleAnalyser/PlSqlRuleAnalyser.cs:726-741 | after each prefix of the children, the WITH slot holds the list of the last factoring clause seen that yielded one, or none when no such clause was seen |
| Queries.ParseSelectOnlyStatement | DatabaseConverter/SqlAnalyser.Core/RuleAnalyser/PlSqlRuleAnalyser.cs:720-749 | the statement never carries a row limit; its select and WITH list are stated by SelectOnlyRule |
| Queries.SelectOnlyRule | DatabaseConverter/SqlAnalyser.Core/RuleAnalyser/PlSqlRuleAnalyser.cs:720-749 | apart from its WITH list, a select-only statement is the select of its last subquery child, or a new empty select when there is none. Its WITH list is that of the last factoring clause child that yields one, and absent when none does |
| Queries.SelectLimitRule | DatabaseConverter/SqlAnalyser.Core/RuleAnalyser/PlSqlRuleAnalyser.cs:677-718 | apart from the limit, the statement is the last select_only child's select, or a new empty select without one. The offset and fetch clauses are normalised into one limit, present exactly when either clause is. The start row is the expression of the last offset clause, or unset without one. The row count is the expression of the last fetch clause (the null-node token when that clause has no expression), or unset without one |
| Queries.SelectPrefixLimit | DatabaseConverter/SqlAnalyser.Core/RuleAnalyser/PlSqlRuleAnalyser.cs:683-707 | after each prefix of the children, a limit exists exactly when an offset or fetch clause came before |
| Queries.SelectStatementPrefix | DatabaseConverter/SqlAnalyser.Core/RuleAnalyser/PlSqlRuleAnalyser.cs:683-688 | after each prefix of the children, the statement is the select of the last select_only child seen, or the new empty select when there was none |
| Queries.SelectStatementNoLimit | DatabaseConverter/SqlAnalyser.Core/RuleAnalyser/PlSqlRuleAnalyser.cs:683-688 | the statement the loop holds never carries a limit of its own: the limit is kept apart and attached only at the end |
| Queries.SelectStartRowPrefix | DatabaseConverter/SqlAnalyser.Core/RuleAnalyser/PlSqlRuleAnalyser.cs:683-697 | after each prefix of the children, the start row is the expression of the last offset clause seen, and unset when none was seen |
| Queries.SelectRowCountPrefix | DatabaseConverter/SqlAnalyser.Core/RuleAnalyser/PlSqlRuleAnalyser.cs:683-707 | after each prefix of the children, the row count is the expression of the last fetch clause seen, and unset when none was seen |
| Queries.ParseSelectStatement | DatabaseConverter/SqlAnalyser.Core/RuleAnalyser/PlSqlRuleAnalyser.cs:677-718 | the loop computes the statement that SelectLimitRule characterises |
| Statements.ParseExitStatement | DatabaseConverter/SqlAnalyser.Core/RuleAnalyser/PlSqlRuleAnalyser.cs:464-471 | an exit always has a Condition token; it is the null-node token exactly when the exit has no WHEN condition, and the condition's text otherwise |
| Statements.ParseReturnStatement | DatabaseConverter/SqlAnalyser.Core/RuleAnalyser/PlSqlRuleAnalyser.cs:1195-1211 | a return statement with an expression returns that expression; one without becomes a leave statement holding the statement's text |
| Text.IndexOfIgnoreCase | DatabaseConverter/SqlAnalyser.Core/RuleAnalyser/PlSqlRuleAnalyser.cs:479 | -1 exactly when the text does not occur from `from` on (ignoring ASCII case); otherwise the first such position |
| Statements.ParseFunctionCallStatement | DatabaseConverter/SqlAnalyser.Core/RuleAnalyser/PlSqlRuleAnalyser.cs:473-493 | a print statement exactly when the routine name contains DBMS_OUTPUT in any case, printing the argument list's text, or the null-node token when there is no argument list; otherwise a call of the routine name, as a RoutineName token, with one token per argument in order |
| Statements.LowerCasePrintIsPrint | DatabaseConverter/SqlAnalyser.Core/RuleAnalyser/PlSqlRuleAnalyser.cs:479-482 | `dbms_output.put_line` written in lower case is still a print statement, and without arguments it prints the null-node token |
| Statements.ParseCursorManipulationtatement | DatabaseConverter/SqlAnalyser.Core/RuleAnalyser/PlSqlRuleAnalyser.cs:541-562 | one statement per open, fetch or close child, in child order; each is the statement the matching builder makes of that child |
| Statements.ParseOpenCursorStatement | DatabaseConverter/SqlAnalyser.Core/RuleAnalyser/PlSqlRuleAnalyser.cs:564-571 | an open statement of the cursor name, typed CursorName |
| Statements.ParseFetchCursorStatement | DatabaseConverter/SqlAnalyser.Core/RuleAnalyser/PlSqlRuleAnalyser.cs:573-581 | a fetch statement of the cursor name, typed CursorName, with one VariableName token per INTO variable, in order |
| Statements.ParseCloseCursorStatement | DatabaseConverter/SqlAnalyser.Core/RuleAnalyser/PlSqlRuleAnalyser.cs:583-590 | a close statement of the cursor name, typed CursorName, marked as the end |
| Statements.ParseUpdateStatement | DatabaseConverter/SqlAnalyser.Core/RuleAnalyser/PlSqlRuleAnalyser.cs:635-661 | one target table, named by the general_table_ref's text, with its tableview_name as the Name and its alias; one name/value item per set element, in order; the condition is the where clause's text exactly when there is a where clause |
| Statements.ParseDeleteStatement | DatabaseConverter/SqlAnalyser.Core/RuleAnalyser/PlSqlRuleAnalyser.cs:663-675 | a list of exactly one delete statement whose table is named by the general_table_ref's text, with its tableview_name as the Name and its alias, and the where clause's text as its condition exactly when present |
| Statements.IntoColumns | DatabaseConverter/SqlAnalyser.Core/RuleAnalyser/PlSqlRuleAnalyser.cs:606-609 | one column per column_name of the INTO clause, in order, named as ParseColumnName names it: by its first id with that id as its Name token, or else by its identifier with the identifier as a nested column Name, or else by its text |
| Statements.InsertOf | DatabaseConverter/SqlAnalyser.Core/RuleAnalyser/PlSqlRuleAnalyser.cs:592-633 | an insert always yields an insert statement; its contents, for any children, are stated by InsertRule |
| Statements.InsertIntoValuesShape | DatabaseConverter/SqlAnalyser.Core/RuleAnalyser/PlSqlRuleAnalyser.cs:598-630 | for `INSERT INTO t (cols) VALUES (...)`: the table is named by t's general_table_ref, with its tableview_name as the Name and its alias; the columns are IntoColumns of the INTO clause, and the values are the expressions of the values clause in order |
| Statements.InsertRule | DatabaseConverter/SqlAnalyser.Core/RuleAnalyser/PlSqlRuleAnalyser.cs:596-630 | for any children of a single_table_insert, in any order: the columns are the IntoColumns of every INTO clause in order, the values the expressions of every values clause in order, and the table is that of the LAST INTO clause, named by its general_table_ref, or null when there is no INTO clause; a multi-table insert has no children |
| Statements.InsertContentsPrefix | DatabaseConverter/SqlAnalyser.Core/RuleAnalyser/PlSqlRuleAnalyser.cs:600-629 | after each prefix of the children, the columns and values are those of every INTO and values clause among them, in order |
| Statements.InsertTablePrefix | DatabaseConverter/SqlAnalyser.Core/RuleAnalyser/PlSqlRuleAnalyser.cs:600-612 | after each prefix of the children, the table is that of the last INTO clause among them, and null when there is none |
| Statements.MultiTableInsertIsEmpty | DatabaseConverter/SqlAnalyser.Core/RuleAnalyser/PlSqlRuleAnalyser.cs:596-598 | a multi-table insert yields an empty insert statement |
| Statements.AppendIntoColumns | DatabaseConverter/SqlAnalyser.Core/RuleAnalyser/PlSqlRuleAnalyser.cs:606-609 | the inner loop appends the INTO clause's columns |
| Statements.AppendExpressionValues | DatabaseConverter/SqlAnalyser.Core/RuleAnalyser/PlSqlRuleAnalyser.cs:617-625 | the innermost loop appends one value per expression child |
| Statements.AppendValuesClause | DatabaseConverter/SqlAnalyser.Core/RuleAnalyser/PlSqlRuleAnalyser.cs:611-628 | the values loop appends the values of every expressions child |
| Statements.ParseInsertStatement | DatabaseConverter/SqlAnalyser.Core/RuleAnalyser/PlSqlRuleAnalyser.cs:592-633 | the nested loops compute the statement that InsertRule characterises |
| Statements.ParseDataManipulationLanguageStatement | DatabaseConverter/SqlAnalyser.Core/RuleAnalyser/PlSqlRuleAnalyser.cs:514-539 | one statement per select, insert, update or delete child, in child order, and nothing else: a select child gives the select ParseSelectStatement computes, an insert child the insert of InsertOf, an update child ParseUpdateStatement, a delete child its single delete statement |
| Statements.ParseSqlStatement | DatabaseConverter/SqlAnalyser.Core/RuleAnalyser/PlSqlRuleAnalyser.cs:495-512 | every statement it yields is a DML statement or a cursor statement |
| Statements.ParseSqlStatementInOrder | DatabaseConverter/SqlAnalyser.Core/RuleAnalyser/PlSqlRuleAnalyser.cs:495-512 | results keep child order: the statements of two child lists joined together are the statements of each, concatenated |
| Statements.ParseSqlStatementChild | DatabaseConverter/SqlAnalyser.Core/RuleAnalyser/PlSqlRuleAnalyser.cs:499-509 | a single DML child yields exactly what ParseDataManipulationLanguageStatement yields for it, a single cursor child exactly what ParseCursorManipulationtatement yields, and any other child nothing |
| Statements.SetPrefix | DatabaseConverter/SqlAnalyser.Core/RuleAnalyser/PlSqlRuleAnalyser.cs:1029-1043 | every statement built so far is a set statement, and there is one as soon as a general_element has been seen |
| Statements.SetKeysPrefix | DatabaseConverter/SqlAnalyser.Core/RuleAnalyser/PlSqlRuleAnalyser.cs:1029-1043 | after each prefix, there is one set statement per general_element seen, keyed by its text, in order |
| Statements.SetValuesPrefix | DatabaseConverter/SqlAnalyser.Core/RuleAnalyser/PlSqlRuleAnalyser.cs:1029-1043 | after each prefix, key k holds the value of the last expression child seen after exactly k + 1 general_elements, and no value when there was none |
| Statements.SetKeysRule | DatabaseConverter/SqlAnalyser.Core/RuleAnalyser/PlSqlRuleAnalyser.cs:1025-1046 | one set statement per general_element child, keyed by its text, in order. Each key takes the value of the last expression child between it and the next general_element, and has no value when there is none |
| Statements.SimpleAssignment | DatabaseConverter/SqlAnalyser.Core/RuleAnalyser/PlSqlRuleAnalyser.cs:1025-1046 | `x := e` yields exactly one set statement, setting x to e |
| Statements.ParseSetStatement | DatabaseConverter/SqlAnalyser.Core/RuleAnalyser/PlSqlRuleAnalyser.cs:1025-1046 | the loop, which fills in the value of the last set statement, computes the list that SetKeysRule characterises |
| Statements.DeclarePrefixKind | DatabaseConverter/SqlAnalyser.Core/RuleAnalyser/PlSqlRuleAnalyser.cs:1052-1079 | after each prefix, the statement is null exactly when no variable or cursor declaration child was seen, and otherwise a variable or cursor declaration |
| Statements.DeclarePrefixRule | DatabaseConverter/SqlAnalyser.Core/RuleAnalyser/PlSqlRuleAnalyser.cs:1052-1079 | after each prefix, the statement is the declaration of the last variable or cursor declaration child seen |
| Statements.ParseDeclareStatement | DatabaseConverter/SqlAnalyser.Core/RuleAnalyser/PlSqlRuleAnalyser.cs:1048-1082 | the statement of the last variable or cursor declaration child, which is a variable or cursor declaration; the null entry exactly when there is no such child |
| Statements.ParseException | DatabaseConverter/SqlAnalyser.Core/RuleAnalyser/PlSqlRuleAnalyser.cs:374-393 | one exception item per handler, in order, named after its first exception name, holding its statements |
| Statements.ParseIfStatement | DatabaseConverter/SqlAnalyser.Core/RuleAnalyser/PlSqlRuleAnalyser.cs:1084-1112 | an IF item with its condition, one ELSEIF item per elsif part in order, and a condition-less ELSE item exactly when there is an else part, always last |
| Statements.ParseCaseStatement | DatabaseConverter/SqlAnalyser.Core/RuleAnalyser/PlSqlRuleAnalyser.cs:1114-1146 | a simple CASE gives the case variable, one IF-tagged item per WHEN in order, and an ELSE item exactly when there is an else part; a searched CASE gives no variable and no items; no item is ever ELSEIF |
| Statements.LoopPrefix | DatabaseConverter/SqlAnalyser.Core/RuleAnalyser/PlSqlRuleAnalyser.cs:1150-1190 | every prefix of the loop's children builds a loop statement; its type, condition and body are stated by LoopTypePrefix, LoopConditionPrefix and LoopStatementsPrefix |
| Statements.LoopOf | DatabaseConverter/SqlAnalyser.Core/RuleAnalyser/PlSqlRuleAnalyser.cs:1148-1193 | a loop always yields a loop statement; its type, condition and body are stated by LoopTypeRule, LoopConditionRule and LoopStatementsRule |
| Statements.ParseLoopStatement | DatabaseConverter/SqlAnalyser.Core/RuleAnalyser/PlSqlRuleAnalyser.cs:1148-1193 | the loop computes the statement that LoopTypeRule, LoopConditionRule and LoopStatementsRule characterise |
| Statements.ParseBody | DatabaseConverter/SqlAnalyser.Core/RuleAnalyser/PlSqlRuleAnalyser.cs:321-339 | the loop computes the statements that ParseBodyShape characterises |
| Statements.ParseStatement | DatabaseConverter/SqlAnalyser.Core/RuleAnalyser/PlSqlRuleAnalyser.cs:417-462 | the loop computes the statements that ParseStatementShape characterises |
| Statements.BodyPrefixIsConcat | DatabaseConverter/SqlAnalyser.Core/RuleAnalyser/PlSqlRuleAnalyser.cs:325-331 | after each prefix, the body's list is the statements of its seq_of_statements children so far, concatenated in order |
| Statements.ParseBodyShape | DatabaseConverter/SqlAnalyser.Core/RuleAnalyser/PlSqlRuleAnalyser.cs:321-339 | a body's statements are those of its statement lists in order; when it has exception handlers, one exception statement with one item per handler comes last |
| Statements.StatementPrefixIsConcat | DatabaseConverter/SqlAnalyser.Core/RuleAnalyser/PlSqlRuleAnalyser.cs:421-459 | after each prefix, a statement's list is what its children so far yield, concatenated in order |
| Statements.ParseStatementShape | DatabaseConverter/SqlAnalyser.Core/RuleAnalyser/PlSqlRuleAnalyser.cs:417-462 | a statement yields what each of its children yields, concatenated in child order, and nothing when no child is recognised |
| Statements.SeqPrefixIsConcat | DatabaseConverter/SqlAnalyser.Core/RuleAnalyser/PlSqlRuleAnalyser.cs:369-372 | after each prefix, a statement list's result is what ParseStatement yields for each of its statements so far, concatenated in order |
| Statements.ParseSeqStatementShape | DatabaseConverter/SqlAnalyser.Core/RuleAnalyser/PlSqlRuleAnalyser.cs:369-372 | a statement list yields what ParseStatement yields for each of its statements, concatenated in order; splitting the list splits the result the same way |
| Statements.LoopConditionPrefix | DatabaseConverter/SqlAnalyser.Core/RuleAnalyser/PlSqlRuleAnalyser.cs:1180-1187 | after each prefix, the condition slot holds the last condition or cursor_loop_param seen, or none |
| Statements.LoopConditionStep | DatabaseConverter/SqlAnalyser.Core/RuleAnalyser/PlSqlRuleAnalyser.cs:1180-1187 | a condition or cursor_loop_param child overwrites the condition slot; any other child leaves it alone |
| Statements.LoopConditionRule | DatabaseConverter/SqlAnalyser.Core/RuleAnalyser/PlSqlRuleAnalyser.cs:1148-1193 | the loop's single condition slot holds the last WHILE condition or FOR cursor/range parameter as a Condition token; with neither it is empty |
| Statements.LoopTypePrefix | DatabaseConverter/SqlAnalyser.Core/RuleAnalyser/PlSqlRuleAnalyser.cs:1154-1175 | after each prefix, the loop type is set only by a FOR, WHILE or LOOP terminal at child 0 |
| Statements.LoopTypeRule | DatabaseConverter/SqlAnalyser.Core/RuleAnalyser/PlSqlRuleAnalyser.cs:1148-1193 | the loop type is set exactly when the first child is a FOR, WHILE or LOOP keyword, and it is that keyword's type (so a labelled loop keeps no type) |
| Statements.LoopStatementsPrefix | DatabaseConverter/SqlAnalyser.Core/RuleAnalyser/PlSqlRuleAnalyser.cs:1176-1179 | after each prefix, the loop body is the statements of its seq_of_statements children so far, in order |
| Statements.LoopStatementsRule | DatabaseConverter/SqlAnalyser.Core/RuleAnalyser/PlSqlRuleAnalyser.cs:1148-1193 | the loop body is the statements of all its statement lists, concatenated in order |
| Scripts.TwoPartName | DatabaseConverter/SqlAnalyser.Core/RuleAnalyser/PlSqlRuleAnalyser.cs:67-79 | an owner exactly when the name is schema-qualified; a qualified name gives owner = identifier and name = id_expression, a bare name gives name = identifier |
| Scripts.KeywordDirection | DatabaseConverter/SqlAnalyser.Core/RuleAnalyser/PlSqlRuleAnalyser.cs:401-412 | an input parameter exactly unless the keyword is OUT; an output parameter exactly unless it is IN |
| Scripts.NoDirectionKeywordKeepsDefault | DatabaseConverter/SqlAnalyser.Core/RuleAnalyser/PlSqlRuleAnalyser.cs:395-415 | without an IN, OUT or INOUT terminal the direction stays as it was |
| Scripts.LastDirectionKeywordWins | DatabaseConverter/SqlAnalyser.Core/RuleAnalyser/PlSqlRuleAnalyser.cs:395-415 | the last IN, OUT or INOUT terminal decides the direction |
| Scripts.InOutIsBoth | DatabaseConverter/SqlAnalyser.Core/RuleAnalyser/PlSqlRuleAnalyser.cs:409-412 | an INOUT parameter (with no direction keyword after it) is both input and output |
| Scripts.SeparateInOutIsOutOnly | DatabaseConverter/SqlAnalyser.Core/RuleAnalyser/PlSqlRuleAnalyser.cs:395-415 | `IN OUT` written as two keywords gives an output-only parameter: the OUT keyword overwrites the IN before it |
| Scripts.SetParameterType | DatabaseConverter/SqlAnalyser.Core/RuleAnalyser/PlSqlRuleAnalyser.cs:395-415 | the loop changes only the direction, and computes the direction the lemmas above characterise |
| Scripts.SetRoutineParameters | DatabaseConverter/SqlAnalyser.Core/RuleAnalyser/PlSqlRuleAnalyser.cs:341-367 | one parameter per parameter node, in order: its name, its type as a DataType token, a default exactly when there is a default_value_part, holding that whole part's text (its `:=` or DEFAULT keyword included), and the direction its own keywords decide |
| Scripts.DeclareStatements | DatabaseConverter/SqlAnalyser.Core/RuleAnalyser/PlSqlRuleAnalyser.cs:85-91 | one declare statement per declare_spec, in order |
| Scripts.AnalyseProcedure | DatabaseConverter/SqlAnalyser.Core/RuleAnalyser/PlSqlRuleAnalyser.cs:51-105 | the syntax error is passed through; a procedure script exists exactly when there is no error and there is a unit statement; it is empty when the unit is not a procedure; otherwise it has the two-part name, the parameters, then the declarations followed by the body's statements |
| Scripts.AnalyseFunction | DatabaseConverter/SqlAnalyser.Core/RuleAnalyser/PlSqlRuleAnalyser.cs:107-163 | as AnalyseProcedure, for a function script, with the return type as a DataType token |
| Scripts.ViewScriptOf | DatabaseConverter/SqlAnalyser.Core/RuleAnalyser/PlSqlRuleAnalyser.cs:195-203 | one select statement per select_only_statement child of the view, in child order, each the select ParseSelectOnlyStatement makes of that child, and nothing else |
| Scripts.AnalyseView | DatabaseConverter/SqlAnalyser.Core/RuleAnalyser/PlSqlRuleAnalyser.cs:165-214 | the syntax error is passed through; a view script exists exactly when there is no error and there is a unit statement; it is empty when the unit is not a view; otherwise it has the two-part name and one select statement per select_only_statement child, in order, each that child's select |
| Scripts.TriggerEventOf | DatabaseConverter/SqlAnalyser.Core/RuleAnalyser/PlSqlRuleAnalyser.cs:255-262 | each of the texts INSERT, UPDATE and DELETE maps to its own event, one to one |
| Scripts.TriggerTimeRule | DatabaseConverter/SqlAnalyser.Core/RuleAnalyser/PlSqlRuleAnalyser.cs:264-281 | the time is unset exactly when no BEFORE, AFTER or INSTEAD terminal is among the trigger's children; otherwise the last such terminal decides it |
| Scripts.AnalyseTrigger | DatabaseConverter/SqlAnalyser.Core/RuleAnalyser/PlSqlRuleAnalyser.cs:216-314 | the syntax error is passed through; a trigger script exists exactly when there is no error and there is a unit statement. For a create_trigger: the two-part name; for a simple DML trigger, its table view's text as a TableName token, its events in order and its time; no table, no events and no time otherwise; the WHEN condition's text as a Condition token exactly when there is a WHEN clause; then the block's declarations followed by its body |

## Left out

- Lexing, parsing and GetRootContext (lines 15-49) are left out. The parser's syntax error and the first unit statement are inputs. ExtractFunctions (called at lines 99, 157, 208 and 308) is in the base class, which is not part of this model, so the model does not collect routine calls into the script.
- ParseTransactionStatement (lines 1213-1232) is never called from ParseStatement or from any other member of the analyser, so it is not modelled.
- The TokenInfo, TableName and ColumnName constructors, ParseToken and GetText are in classes that are not part of this model. They are modelled as wrapping a node's text with a type. `new TokenInfo(x)` without a type is taken to have type General. `new TokenInfo(null)` is the distinct value `NullNodeToken`.
- Token codes are abstract `TokenKind` values. The UNION and ALL codes at lines 909-913 come from the T-SQL parser's constants, so in the real program the union rule depends on how those codes happen to line up with PL/SQL's; the model treats them as the PL/SQL UNION and ALL keywords.
- `StringComparison.OrdinalIgnoreCase` (line 479) is modelled with ASCII case folding only.
- Shapes on which the source throws a null-reference exception are excluded by the model's types: each sub-node it dereferences without a null check is a required field. The model does not capture these crashes:
  - a procedure or function body given as a call_spec or EXTERNAL (`body()` null);
  - a parameter without type_spec;
  - a join without outer_join_type, which includes a plain inner join (line 956);
  - an empty pivot_element list (line 1003);
  - a call of a routine whose name does not contain DBMS_OUTPUT, without an argument list (line 488);
  - a cursor declaration without a select statement;
  - a trigger whose body is not a trigger_block (lines 293-294);
  - an insert INTO clause without paren_column_list.
- The parenthesised form of an update SET clause (`(c1, c2) = (subquery)`) is not modelled: its column_name and expression are null, and what the TokenInfo constructor and ParseToken do with null is in classes that are not part of this model. The model's SET items are always the `column = expression` form.
- ParseSetStatement: `Last()` on an empty list throws. The model rules this out with a subset type on assignment children: an expression child never comes before the first general_element.
- AnalyseTrigger: `Enum.Parse` throws on an event text other than exactly INSERT, UPDATE or DELETE. The model rules this out with a precondition, which applies only when there is no syntax error.
- Statements.ParseInsertStatement: the three nested loops of the source are split into three helper methods, one per loop level. Each helper is proved against the same specification function.
- TriggerTime, JoinType and LoopType fields are `None` while the analyser has not assigned them (TriggerScript's time, JoinItem's type, LoopStatement's type). In the program such a field holds its enum's default value, the member numbered 0. The enum declarations are not part of this model, so it does not say which member that is. This matters most for the trigger time, which the loop over create_trigger's own children may never set.
- SetRoutineParameters: a fresh Parameter's direction is taken as no direction at all (neither IN nor OUT), because the Parameter class is not part of this model.
