/**
 A reference meaning for plans, against which rewrites are judged.

 Expressions are evaluated strictly over SQL values; NULL doubles as the truth value
 unknown (sections 8.2, 8.6 and 8.12 of SQL-92). A literal is worth what its declared type
 makes of it. Integers are exact and unbounded, and so are their sums, differences, products,
 remainders and even quotients; an operation on a double is a binary64 one. Numbers compare
 by value. An `Engine` supplies the rest: what literals of other types are worth, how strings
 collate, how values of other types or of mixed ones compare and calculate, uneven quotients
 of integers, which candidate rows a FROM clause gives, what functions compute, and how clause
 results make a relation. A plan's clauses reach the engine only through their values on the
 candidate rows, so a statement about every engine is a statement about every way of executing
 joins, grouping, aggregation, windows, ordering and limits.
 */
module Semantics {
  import opened Prelude
  import opened Binary64
  import opened Json
  import opened Ast
  import opened Values

  datatype Value =
    | VNull
    | VBool(b: bool)
    | VInt(i: int)
    | VFloat(f: F64)
    | VStr(s: string)
    | VOther(dataType: DataType, v: Json)  // a decimal, date, time, UUID, array, document, ...
    | VStar

  datatype Outcome<+T> = Ok(value: T) | Err

  type Row = map<(Option<string>, string), Value>
  type Table = map<Row, Outcome<Value>>
  type Relation_ = seq<seq<Value>>

  datatype Pattern = ByLike | ByILike | ByIn | ByBetween

  datatype Binding = Binding(name: string, recursive: bool, rows: Relation_)

  /** The clauses of a plan as tables of outcomes over the candidate rows. */
  datatype Meaning = Meaning(
    select: seq<Table>, where_: seq<Table>, groupBy: seq<Table>, having: seq<Table>,
    orderBy: seq<Table>, joins: seq<Table>)

  datatype Engine = Engine(
    literal: (Json, DataType) -> Outcome<Value>,
    collate: (string, string) -> Ordering,
    compare: (Relation, Value, Value) -> Outcome<Value>,
    calculate: (BinaryOperator, Value, Value) -> Outcome<Value>,
    candidates: (FromClause, seq<FromClause>, seq<Binding>, Row) -> set<Row>,
    call: (string, bool, seq<Table>, Row) -> Outcome<Value>,
    scalar: Relation_ -> Outcome<Value>,
    matches: (Pattern, Value, Value) -> Outcome<Value>,
    leaf: (Expression, set<Row>, Row) -> Outcome<Value>,
    exists_: (QueryPlan, Row) -> Outcome<Value>,
    inQuery: (Value, QueryPlan, Row) -> Outcome<Value>,
    combine: (QueryPlan, Meaning, seq<Binding>, Option<Relation_>, Row) -> Outcome<Relation_>)

  // ---- operators ----------------------------------------------------------

  predicate IsNumber(v: Value) {
    v.VInt? || v.VFloat?
  }

  /** The real number a numeric value is. */
  function Quantity(v: Value): real
    requires IsNumber(v)
  {
    match v
    case VInt(i) => i as real
    case VFloat(f) => f
  }

  /** What a literal is worth: the engine decides where the JSON value is not of the declared type's own kind. */
  function LiteralOutcome(eng: Engine, v: Json, t: DataType): Outcome<Value> {
    match (v, t)
    case (Null, _) => Ok(VNull)
    case (Num(IntNumber(i)), Int) => Ok(VInt(i))
    case (Num(n), Float) => Ok(VFloat(NumberToF64(n)))
    case (Bool(b), Boolean) => Ok(VBool(b))
    case (Str(s), String) => Ok(VStr(s))
    case _ => eng.literal(v, t)
  }

  predicate IsTruth(v: Value) {
    v.VNull? || v.VBool?
  }

  function And3(a: Outcome<Value>, b: Outcome<Value>): Outcome<Value> {
    if a.Err? || b.Err? || !IsTruth(a.value) || !IsTruth(b.value) then Err
    else if a.value == VBool(false) || b.value == VBool(false) then Ok(VBool(false))
    else if a.value == VNull || b.value == VNull then Ok(VNull)
    else Ok(VBool(true))
  }

  function Or3(a: Outcome<Value>, b: Outcome<Value>): Outcome<Value> {
    if a.Err? || b.Err? || !IsTruth(a.value) || !IsTruth(b.value) then Err
    else if a.value == VBool(true) || b.value == VBool(true) then Ok(VBool(true))
    else if a.value == VNull || b.value == VNull then Ok(VNull)
    else Ok(VBool(false))
  }

  function Not3(a: Outcome<Value>): Outcome<Value> {
    if a.Err? || !IsTruth(a.value) then Err
    else if a.value.VBool? then Ok(VBool(!a.value.b))
    else Ok(VNull)
  }

  function Compare3(eng: Engine, rel: Relation, a: Outcome<Value>, b: Outcome<Value>): Outcome<Value> {
    if a.Err? || b.Err? then Err
    else if IsNumber(a.value) && IsNumber(b.value) then
      Ok(VBool(Holds(rel, OrderReals(Quantity(a.value), Quantity(b.value)))))
    else match (a.value, b.value)
      case (VStr(s), VStr(t)) => Ok(VBool(Holds(rel, eng.collate(s, t))))
      case (VBool(p), VBool(q)) => Ok(VBool(Holds(rel, OrderBools(p, q))))
      case (VNull, _) => Ok(VNull)
      case (_, VNull) => Ok(VNull)
      case _ => eng.compare(rel, a.value, b.value)
  }

  /** Databases differ on an uneven quotient: it may be truncated, a decimal or a double. */
  function CalculateIntegers(eng: Engine, op: BinaryOperator, i: int, j: int): Outcome<Value> {
    match IntegerResult(i, op, j)
    case Some(n) => Ok(VInt(n))
    case None => if op.Div? && j != 0 then eng.calculate(Div, VInt(i), VInt(j)) else Err
  }

  function FloatOutcome(x: Option<F64>): Outcome<Value> {
    if x.Some? then Ok(VFloat(x.value)) else Err
  }

  /** An operation with a double converts the other operand, if that is an integer. */
  function CalculateFloats(op: BinaryOperator, x: real, y: real): Outcome<Value> {
    match (ToF64(x), ToF64(y))
    case (Some(l), Some(r)) => FloatOutcome(Arithmetic(l, op, r))
    case _ => Err
  }

  function Calculate(eng: Engine, op: BinaryOperator, a: Outcome<Value>, b: Outcome<Value>): Outcome<Value> {
    if a.Err? || b.Err? then Err
    else if a.value.VInt? && b.value.VInt? then CalculateIntegers(eng, op, a.value.i, b.value.i)
    else if IsNumber(a.value) && IsNumber(b.value) then
      CalculateFloats(op, Quantity(a.value), Quantity(b.value))
    else if (a.value.VNull? || IsNumber(a.value)) && (b.value.VNull? || IsNumber(b.value)) then Ok(VNull)
    else eng.calculate(op, a.value, b.value)
  }

  function Match3(eng: Engine, how: Pattern, a: Outcome<Value>, b: Outcome<Value>): Outcome<Value> {
    if a.Err? || b.Err? then Err else eng.matches(how, a.value, b.value)
  }

  function Binary(eng: Engine, op: BinaryOperator, a: Outcome<Value>, b: Outcome<Value>): Outcome<Value> {
    match op
    case Add | Sub | Mul | Div | Mod => Calculate(eng, op, a, b)
    case AndOp => And3(a, b)
    case OrOp => Or3(a, b)
    case Order(rel) => Compare3(eng, rel, a, b)
    case LikeOp => Match3(eng, ByLike, a, b)
    case ILikeOp => Match3(eng, ByILike, a, b)
  }

  function Comparison3(eng: Engine, op: ComparisonOperator, a: Outcome<Value>, b: Outcome<Value>): Outcome<Value> {
    match op
    case Compare(rel) => Compare3(eng, rel, a, b)
    case CompareLike => Match3(eng, ByLike, a, b)
    case CompareILike => Match3(eng, ByILike, a, b)
    case CompareIn => Match3(eng, ByIn, a, b)
    case CompareBetween => Match3(eng, ByBetween, a, b)
  }

  /** `v IN (xs)`: the disjunction of the equalities. */
  function InList(eng: Engine, v: Outcome<Value>, xs: seq<Outcome<Value>>): Outcome<Value> {
    if xs == [] then (if v.Ok? then Ok(VBool(false)) else Err)
    else Or3(Compare3(eng, Eq, v, xs[0]), InList(eng, v, xs[1..]))
  }

  // ---- evaluation ---------------------------------------------------------

  ghost function Eval(eng: Engine, e: Expression, rows: set<Row>, row: Row): Outcome<Value>
    decreases e, 0
  {
    match e
    case Literal(v, t) => LiteralOutcome(eng, v, t)
    case ColumnRef(table, column) => if (table, column) in row then Ok(row[(table, column)]) else Err
    case FunctionCall(name, args, distinct) =>
      eng.call(name, distinct, EvalTables(eng, args, rows), row)
    case BinaryOp(left, op, right) => Binary(eng, op, Eval(eng, left, rows, row), Eval(eng, right, rows, row))
    case Star => Ok(VStar)
    case SubQuery(query) =>
      (match EvalPlan(eng, query, row)
       case Err => Err
       case Ok(rel) => eng.scalar(rel))
    case Case(_, _, _) => eng.leaf(e, rows, row)
    case WindowFunction(_, _, _, _) => eng.leaf(e, rows, row)
  }

  ghost function EvalTable(eng: Engine, e: Expression, rows: set<Row>): Table
    decreases e, 1
  {
    map row | row in rows :: Eval(eng, e, rows, row)
  }

  ghost function EvalTables(eng: Engine, es: seq<Expression>, rows: set<Row>): seq<Table>
    decreases es, 2
  {
    seq(|es|, i requires 0 <= i < |es| => EvalTable(eng, es[i], rows))
  }

  ghost function EvalAll(eng: Engine, es: seq<Expression>, rows: set<Row>, row: Row): seq<Outcome<Value>>
    decreases es, 1
  {
    seq(|es|, i requires 0 <= i < |es| => Eval(eng, es[i], rows, row))
  }

  ghost function EvalPredicate(eng: Engine, p: Predicate, rows: set<Row>, row: Row): Outcome<Value>
    decreases p, 0
  {
    match p
    case Comparison(left, op, right) =>
      Comparison3(eng, op, Eval(eng, left, rows, row), Eval(eng, right, rows, row))
    case And(l, r) => And3(EvalPredicate(eng, l, rows, row), EvalPredicate(eng, r, rows, row))
    case Or(l, r) => Or3(EvalPredicate(eng, l, rows, row), EvalPredicate(eng, r, rows, row))
    case Not(c) => Not3(EvalPredicate(eng, c, rows, row))
    case Between(expr, low, high) =>
      var v := Eval(eng, expr, rows, row);
      And3(Compare3(eng, Gte, v, Eval(eng, low, rows, row)), Compare3(eng, Lte, v, Eval(eng, high, rows, row)))
    case In(expr, Values(values)) =>
      InList(eng, Eval(eng, expr, rows, row), EvalAll(eng, values, rows, row))
    case In(expr, Query(query)) =>
      (match Eval(eng, expr, rows, row)
       case Err => Err
       case Ok(v) => eng.inQuery(v, query, row))
    case Like(expr, pattern) => Match3(eng, ByLike, Eval(eng, expr, rows, row), Ok(VStr(pattern)))
    case IsNull(expr) =>
      (match Eval(eng, expr, rows, row)
       case Err => Err
       case Ok(v) => Ok(VBool(v.VNull?)))
    case Exists(query) => eng.exists_(query, row)
    case True => Ok(VBool(true))
    case False => Ok(VBool(false))
  }

  ghost function EvalPredicateTable(eng: Engine, p: Predicate, rows: set<Row>): Table
    decreases p, 1
  {
    map row | row in rows :: EvalPredicate(eng, p, rows, row)
  }

  ghost function EvalOptional(eng: Engine, p: Option<Predicate>, rows: set<Row>): seq<Table>
    decreases p, 2
  {
    match p
    case None => []
    case Some(q) => [EvalPredicateTable(eng, q, rows)]
  }

  ghost function EvalProjection(eng: Engine, p: Projection, rows: set<Row>): Table
    decreases p, 2
  {
    if p.Expr? then EvalTable(eng, p.expression, rows) else map[]
  }

  ghost function EvalProjections(eng: Engine, ps: seq<Projection>, rows: set<Row>): seq<Table>
    decreases ps, 3
  {
    seq(|ps|, i requires 0 <= i < |ps| => EvalProjection(eng, ps[i], rows))
  }

  ghost function EvalGroup(eng: Engine, c: Clause<Expression>, rows: set<Row>): seq<Table>
    decreases c, 3
  {
    match c
    case Absent => []
    case Given(es) => EvalTables(eng, es, rows)
  }

  ghost function EvalOrderBy(eng: Engine, c: Clause<OrderByTerm>, rows: set<Row>): seq<Table>
    decreases c, 3
  {
    match c
    case Absent => []
    case Given(ts) => seq(|ts|, i requires 0 <= i < |ts| => EvalTable(eng, ts[i].expr, rows))
  }

  ghost function EvalJoins(eng: Engine, c: Clause<JoinClause>, rows: set<Row>): seq<Table>
    decreases c, 3
  {
    match c
    case Absent => []
    case Given(js) => seq(|js|, i requires 0 <= i < |js| => EvalPredicateTable(eng, js[i].on, rows))
  }

  ghost function EvalClauses(eng: Engine, plan: QueryPlan, rows: set<Row>): Meaning
    decreases plan, 1
  {
    Meaning(
      EvalProjections(eng, plan.select, rows),
      EvalOptional(eng, plan.where_, rows),
      EvalGroup(eng, plan.groupBy, rows),
      EvalOptional(eng, plan.having, rows),
      EvalOrderBy(eng, plan.orderBy, rows),
      EvalJoins(eng, plan.joins, rows))
  }

  ghost function EvalCte(eng: Engine, c: CommonTableExpression, outer: Row): Outcome<Binding>
    decreases c, 3
  {
    match EvalPlan(eng, c.query, outer)
    case Err => Err
    case Ok(rel) => Ok(Binding(c.name, c.recursive, rel))
  }

  ghost function EvalCtes(eng: Engine, c: Clause<CommonTableExpression>, outer: Row): seq<Outcome<Binding>>
    decreases c, 4
  {
    match c
    case Absent => []
    case Given(cs) => seq(|cs|, i requires 0 <= i < |cs| => EvalCte(eng, cs[i], outer))
  }

  /** The right operand of a set operation, when there is one. */
  ghost function EvalOperand(eng: Engine, s: Option<SetOperationClause>, outer: Row): Outcome<Option<Relation_>>
    decreases s, 3
  {
    match s
    case None => Ok(None)
    case Some(c) =>
      (match EvalPlan(eng, c.right, outer)
       case Err => Err
       case Ok(rel) => Ok(Some(rel)))
  }

  ghost predicate AllOk<T>(xs: seq<Outcome<T>>) {
    forall i :: 0 <= i < |xs| ==> xs[i].Ok?
  }

  ghost function Unwrap<T>(xs: seq<Outcome<T>>): seq<T>
    requires AllOk(xs)
  {
    seq(|xs|, i requires 0 <= i < |xs| => xs[i].value)
  }

  ghost function EvalPlan(eng: Engine, plan: QueryPlan, outer: Row): Outcome<Relation_>
    decreases plan, 2
  {
    var ctes := EvalCtes(eng, plan.ctes, outer);
    var operand := EvalOperand(eng, plan.setOperation, outer);
    if !AllOk(ctes) || operand.Err? then Err
    else
      var bindings := Unwrap(ctes);
      var rows := eng.candidates(plan.from, JoinSources(plan.joins), bindings, outer);
      eng.combine(Skeleton(plan), EvalClauses(eng, plan, rows), bindings, operand.value, outer)
  }

  // ---- what the engine sees of the rest of a plan -------------------------

  /** Everything in a plan except the expressions of its clauses, CTE bodies and set operand. */
  function Skeleton(plan: QueryPlan): QueryPlan {
    plan.(
      select := EraseProjections(plan.select),
      where_ := EraseOptional(plan.where_),
      groupBy := EraseGroup(plan.groupBy),
      having := EraseOptional(plan.having),
      orderBy := EraseOrderBy(plan.orderBy),
      joins := EraseJoins(plan.joins),
      ctes := Absent,
      setOperation := EraseOperand(plan.setOperation))
  }

  function EraseProjections(ps: seq<Projection>): seq<Projection> {
    seq(|ps|, i requires 0 <= i < |ps| => if ps[i].Expr? then Expr(Star, ps[i].alias) else ps[i])
  }

  function EraseOptional(p: Option<Predicate>): Option<Predicate> {
    if p.Some? then Some(True) else None
  }

  function EraseGroup(c: Clause<Expression>): Clause<Expression> {
    if c.Given? then Given(seq(|c.items|, i => Star)) else Absent
  }

  function EraseOrderBy(c: Clause<OrderByTerm>): Clause<OrderByTerm> {
    if c.Given? then Given(seq(|c.items|, i requires 0 <= i < |c.items| => c.items[i].(expr := Star))) else Absent
  }

  function EraseJoins(c: Clause<JoinClause>): Clause<JoinClause> {
    if c.Given? then Given(seq(|c.items|, i requires 0 <= i < |c.items| => c.items[i].(on := True))) else Absent
  }

  const NO_PLAN: QueryPlan := QueryPlan(
    [], false, Absent, FromClause.Table("", None), None, Absent, None, Absent, None, None, Absent, Absent, None)

  function EraseOperand(s: Option<SetOperationClause>): Option<SetOperationClause> {
    if s.Some? then Some(s.value.(right := NO_PLAN)) else None
  }

  function JoinSources(c: Clause<JoinClause>): seq<FromClause> {
    if c.Given? then seq(|c.items|, i requires 0 <= i < |c.items| => c.items[i].rightTable) else []
  }

  // ---- refinement ---------------------------------------------------------

  /** How closely one value must match another to stand for it. */
  datatype Fidelity = Exact | Numeric

  /** `b` is `a`; numerically, it may also be the integer that the double `a` is. */
  predicate StandsFor(k: Fidelity, a: Value, b: Value) {
    b == a || (k.Numeric? && a.VFloat? && b.VInt? && a.f == b.i as real)
  }

  /** `b` may replace `a`: whatever `a` computes without error, `b` computes too. */
  ghost predicate Refines(k: Fidelity, a: Outcome<Value>, b: Outcome<Value>) {
    a.Ok? ==> b.Ok? && StandsFor(k, a.value, b.value)
  }

  ghost predicate TableRefines(k: Fidelity, a: Table, b: Table) {
    a.Keys == b.Keys && forall row :: row in a ==> Refines(k, a[row], b[row])
  }

  ghost predicate TablesRefine(k: Fidelity, a: seq<Table>, b: seq<Table>) {
    |a| == |b| && forall i :: 0 <= i < |a| ==> TableRefines(k, a[i], b[i])
  }

  /** Truth values must match exactly. */
  ghost predicate MeaningRefines(k: Fidelity, a: Meaning, b: Meaning) {
    && TablesRefine(k, a.select, b.select) && TablesRefine(Exact, a.where_, b.where_)
    && TablesRefine(k, a.groupBy, b.groupBy) && TablesRefine(Exact, a.having, b.having)
    && TablesRefine(k, a.orderBy, b.orderBy) && TablesRefine(Exact, a.joins, b.joins)
  }

  ghost predicate SameTuple(k: Fidelity, a: seq<Value>, b: seq<Value>) {
    |a| == |b| && forall i :: 0 <= i < |a| ==> StandsFor(k, a[i], b[i])
  }

  ghost predicate SameRelation(k: Fidelity, a: Relation_, b: Relation_) {
    |a| == |b| && forall i :: 0 <= i < |a| ==> SameTuple(k, a[i], b[i])
  }

  ghost predicate RelationRefines(k: Fidelity, a: Outcome<Relation_>, b: Outcome<Relation_>) {
    a.Ok? ==> b.Ok? && SameRelation(k, a.value, b.value)
  }

  ghost predicate SameOperand(k: Fidelity, a: Option<Relation_>, b: Option<Relation_>) {
    a.Some? == b.Some? && (a.Some? ==> SameRelation(k, a.value, b.value))
  }

  lemma SameIsReflexive(r: Relation_)
    ensures forall k :: SameRelation(k, r, r)
  {
  }

  lemma SameIsTransitive(k: Fidelity, a: Relation_, b: Relation_, c: Relation_)
    requires SameRelation(k, a, b) && SameRelation(k, b, c)
    ensures SameRelation(k, a, c)
  {
    forall i | 0 <= i < |a| ensures SameTuple(k, a[i], c[i]) {
      assert SameTuple(k, a[i], b[i]) && SameTuple(k, b[i], c[i]);
    }
  }

  /** Exactly the same relation is an equal one. */
  lemma ExactlySameIsEqual(a: Relation_, b: Relation_)
    requires SameRelation(Exact, a, b)
    ensures a == b
  {
    forall i | 0 <= i < |a| ensures a[i] == b[i] {
      assert SameTuple(Exact, a[i], b[i]);
    }
  }

  /**
   An engine that succeeded did so without consulting an erroneous entry, so it gives the
   same answer when errors among its inputs become values. Strict engines and lazy ones
   (which evaluate SELECT only on rows that pass WHERE) are both of this kind. Where it only
   filters, orders, groups and copies values, and where it takes a relation for a scalar, it
   tells numbers apart by what they are, not by how they are held; functions may do either.
   */
  ghost predicate Monotone(eng: Engine) {
    && (forall name, distinct, a, b, row ::
          TablesRefine(Exact, a, b) ==>
            Refines(Exact, eng.call(name, distinct, a, row), eng.call(name, distinct, b, row)))
    && (forall k, shape, a, b, bindings, x, y, outer ::
          MeaningRefines(k, a, b) && SameOperand(k, x, y) ==>
            RelationRefines(k, eng.combine(shape, a, bindings, x, outer), eng.combine(shape, b, bindings, y, outer)))
    && (forall k, a, b :: SameRelation(k, a, b) ==> Refines(k, eng.scalar(a), eng.scalar(b)))
  }
}
