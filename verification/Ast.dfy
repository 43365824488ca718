/** Query plans, expressions and predicates (crates/vlorql-core/src/schema). */
module Ast {
  import opened Prelude
  import opened Json

  datatype DataType =
    | Int | Float | String | Boolean | Date | Timestamp | JsonType | NullType
    | Uuid | Decimal | ArrayType | Jsonb | Blob

  /** The six order relations shared by the two operator enumerations of the source. */
  datatype Relation = Eq | Neq | Gt | Lt | Gte | Lte

  datatype BinaryOperator =
    | Add | Sub | Mul | Div | Mod
    | AndOp | OrOp
    | Order(rel: Relation)
    | LikeOp | ILikeOp

  datatype ComparisonOperator =
    | Compare(rel: Relation)
    | CompareLike | CompareILike | CompareIn | CompareBetween

  datatype Expression =
    | Literal(value: Json, dataType: DataType)
    | ColumnRef(table: Option<string>, column: string)
    | FunctionCall(name: string, args: seq<Expression>, distinct: bool)
    | BinaryOp(left: Expression, op: BinaryOperator, right: Expression)
    | Star
    | SubQuery(query: QueryPlan)
    | Case(operand: Option<Expression>, whenThens: seq<WhenThen>, elseResult: Option<Expression>)
    | WindowFunction(name: string, args: seq<Expression>, distinct: bool, over: WindowSpec)

  datatype WhenThen = WhenThen(when: Expression, then_: Expression)

  datatype WindowSpec = WindowSpec(
    partitionBy: Clause<Expression>, orderBy: Clause<OrderByTerm>, frame: Option<WindowFrame>)

  datatype WindowFrame = WindowFrame(kind: FrameKind, start: FrameBound, end: Option<FrameBound>)

  datatype FrameKind = Rows | Range | Groups

  datatype FrameBound =
    | UnboundedPreceding
    | Preceding(offset: Expression)
    | CurrentRow
    | Following(offset: Expression)
    | UnboundedFollowing

  datatype Predicate =
    | Comparison(left: Expression, op: ComparisonOperator, right: Expression)
    | And(l: Predicate, r: Predicate)
    | Or(l: Predicate, r: Predicate)
    | Not(child: Predicate)
    | Between(expr: Expression, low: Expression, high: Expression)
    | In(expr: Expression, target: InTarget)
    | Like(expr: Expression, pattern: string)
    | IsNull(expr: Expression)
    | Exists(query: QueryPlan)
    | True
    | False

  datatype InTarget = Values(values: seq<Expression>) | Query(query: QueryPlan)

  datatype Projection =
    | Column(table: Option<string>, column: string, alias: Option<string>)
    | Expr(expression: Expression, alias: Option<string>)
    | AllColumns(table: Option<string>)

  datatype FromClause =
    | Table(table: string, alias: Option<string>)
    | Subquery(query: QueryPlan, alias: Option<string>)

  datatype JoinType = Inner | Left | Right | Full | Cross

  datatype JoinClause = JoinClause(joinType: JoinType, rightTable: FromClause, on: Predicate)

  datatype OrderByTerm = OrderByTerm(expr: Expression, descending: bool)

  datatype CommonTableExpression = CommonTableExpression(
    name: string, recursive: bool, query: QueryPlan)

  datatype SetOperation = UnionAll | Union | Intersect | Except

  datatype SetOperationClause = SetOperationClause(operation: SetOperation, right: QueryPlan)

  /** An optional list: the source's `Option<Vec<T>>`. */
  datatype Clause<+T> = Absent | Given(items: seq<T>)
  {
    function Items(): seq<T> {
      if Given? then items else []
    }
  }

  datatype QueryPlan = QueryPlan(
    select: seq<Projection>,
    distinct: bool,
    distinctOn: Clause<Expression>,
    from: FromClause,
    where_: Option<Predicate>,
    groupBy: Clause<Expression>,
    having: Option<Predicate>,
    orderBy: Clause<OrderByTerm>,
    limit: Option<nat>,
    offset: Option<nat>,
    joins: Clause<JoinClause>,
    ctes: Clause<CommonTableExpression>,
    setOperation: Option<SetOperationClause>)
}
