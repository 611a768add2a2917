/**
 * The statement tree of the second-generation front end, src/sql/mod.rs. Only
 * `Select` and `Insert` are ever built by the parser; the rest of the tree is declared
 * and carried here as data.
 */
module SqlAst {
  import opened Optional
  import opened Tokens

  datatype Statement =
    | Select(select: SelectStatement)
    | Insert(insert: InsertStatement)
    | Delete(delete: DeleteStatement)
    | Update(update: UpdateStatement)

  datatype SelectStatement = SelectStatement(
    selections: seq<Selection>,
    table: string,
    condition: Option<WhereExpression>,
    pagination: Option<Pagination>)

  datatype InsertStatement = InsertStatement(
    table: string,
    columns: Option<seq<string>>,
    values: seq<Value>)

  datatype DeleteStatement = DeleteStatement(table: string, condition: Option<WhereExpression>)

  datatype UpdateStatement = UpdateStatement(
    assignments: seq<UpdateAssignment>,
    table: string,
    condition: Option<WhereExpression>)

  datatype UpdateAssignment = UpdateAssignment(field: string, value: Value)

  /** `usize` limits, unbounded here. */
  datatype Pagination = Pagination(limit: Option<nat>, offset: Option<nat>)

  datatype WhereExpression =
    | And(all: seq<WhereExpression>)
    | Or(any: seq<WhereExpression>)
    | Not(negated: WhereExpression)
    | Condition(condition: WhereCondition)

  datatype WhereCondition = WhereCondition(field: string, operator: Operator, value: Value)

  datatype Operator = GreaterThan | GreaterThanEquals | Equals | SmallerThanEquals | SmallerThan | Contains

  datatype Value = StringValue(text: string) | Int(number: uint32)

  datatype Selection = Selection(column: string, alias: Option<string>)
}
