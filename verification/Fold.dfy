/**
 Constant folding (crates/vlorql-core/src/optimizer/fold.rs) over the default traversal of
 crates/vlorql-core/src/optimizer/visitor.rs.

 The traversal treats CASE and window functions as leaves, and leaves FROM, DISTINCT ON,
 EXISTS and IN subqueries alone.
 */
module Fold {
  import opened Prelude
  import opened Binary64
  import opened Json
  import opened Ast
  import opened Values

  /**
   How a constant-false predicate is written. The source compares `false` with itself
   (`SelfComparison`); `Constant` uses the schema's own `Predicate::False` instead.
   */
  datatype FalseForm = SelfComparison | Constant

  // ---- literals -----------------------------------------------------------

  const TWO_63: int := 0x8000_0000_0000_0000

  /** Rust's saturating `as i64`, on integral doubles. */
  function CastI64(v: real): Word {
    if v.Floor >= TWO_63 then TWO_63 - 1
    else if v.Floor < -TWO_63 then -TWO_63
    else v.Floor
  }

  function IntLiteral(i: Word): Expression {
    Literal(Num(IntNumber(i)), Int)
  }

  function FloatLiteral(f: F64): Expression {
    Literal(Num(FloatNumber(f)), Float)
  }

  function BoolLiteral(b: bool): Expression {
    Literal(Bool(b), Boolean)
  }

  function BoolPredicate(b: bool, form: FalseForm): Predicate {
    if !b && form.Constant? then False
    else Comparison(BoolLiteral(b), Compare(Eq), BoolLiteral(b))
  }

  function LiteralAsBool(e: Expression): Option<bool> {
    if e.Literal? && e.dataType == Boolean then AsBool(e.value) else None
  }

  predicate IsNumberLiteral(e: Expression, x: F64) {
    e.Literal? && e.value.Num? && NumberToF64(e.value.n) == x
  }

  function CompareValues(l: Json, r: Json): Option<Ordering> {
    match (l, r)
    case (Num(m), Num(n)) => Some(OrderReals(NumberToF64(m), NumberToF64(n)))
    case (Str(s), Str(t)) => Some(OrderStrings(s, t))
    case (Bool(b), Bool(c)) => Some(OrderBools(b, c))
    case _ => None
  }

  // ---- expressions --------------------------------------------------------

  function FoldBooleanIdentity(left: Expression, op: BinaryOperator, right: Expression): (s: Option<Expression>)
    ensures s.Some? ==> s.value == left || s.value == right
  {
    var l, r := LiteralAsBool(left), LiteralAsBool(right);
    match op
    case AndOp =>
      if l == Some(true) then Some(right)
      else if r == Some(true) then Some(left)
      else if l == Some(false) then Some(left)
      else if r == Some(false) then Some(right)
      else None
    case OrOp =>
      if l == Some(true) then Some(left)
      else if r == Some(true) then Some(right)
      else if l == Some(false) then Some(right)
      else if r == Some(false) then Some(left)
      else None
    case _ => None
  }

  function FoldAlgebraicIdentity(left: Expression, op: BinaryOperator, right: Expression): (s: Option<Expression>)
    ensures s.Some? ==> s.value == left || s.value == right
  {
    match op
    case Add =>
      if IsNumberLiteral(right, ZERO) then Some(left)
      else if IsNumberLiteral(left, ZERO) then Some(right)
      else None
    case Sub => if IsNumberLiteral(right, ZERO) then Some(left) else None
    case Mul =>
      if IsNumberLiteral(right, ONE) then Some(left)
      else if IsNumberLiteral(left, ONE) then Some(right)
      else None
    case Div => if IsNumberLiteral(right, ONE) then Some(left) else None
    case _ => None
  }

  function FoldArithmetic(left: Json, op: BinaryOperator, right: Json): Option<Expression> {
    match (AsF64(left), AsF64(right))
    case (Some(l), Some(r)) =>
      (match Arithmetic(l, op, r)
       case None => None
       case Some(v) =>
         if IsIntegral(l) && IsIntegral(r) && IsIntegral(v) then Some(IntLiteral(CastI64(v)))
         else Some(FloatLiteral(v)))
    case _ => None
  }

  function FoldBoolean(left: Json, op: BinaryOperator, right: Json): Option<Expression> {
    match (AsBool(left), AsBool(right))
    case (Some(l), Some(r)) =>
      if op.AndOp? then Some(BoolLiteral(l && r))
      else if op.OrOp? then Some(BoolLiteral(l || r))
      else None
    case _ => None
  }

  function FoldOrder(left: Json, rel: Relation, right: Json): Option<Expression> {
    match CompareValues(left, right)
    case None => None
    case Some(o) => Some(BoolLiteral(Holds(rel, o)))
  }

  function FoldBinary(left: Json, op: BinaryOperator, right: Json): (s: Option<Expression>)
    ensures s.Some? ==> s.value.Literal?
  {
    match op
    case Add | Sub | Mul | Div | Mod => FoldArithmetic(left, op, right)
    case AndOp | OrOp => FoldBoolean(left, op, right)
    case Order(rel) => FoldOrder(left, rel, right)
    case LikeOp | ILikeOp => None
  }

  /** The rule that fires, if any, at a binary node whose operands are already folded. */
  function SimplifyBinary(left: Expression, op: BinaryOperator, right: Expression): (s: Option<Expression>)
    ensures s.Some? ==> s.value == left || s.value == right || s.value.Literal?
  {
    match FoldBooleanIdentity(left, op, right)
    case Some(e) => Some(e)
    case None =>
      match FoldAlgebraicIdentity(left, op, right)
      case Some(e) => Some(e)
      case None =>
        if left.Literal? && right.Literal? then FoldBinary(left.value, op, right.value) else None
  }

  /** A binary node over folded operands. */
  function BinaryNode(left: Expression, op: BinaryOperator, right: Expression): Expression {
    match SimplifyBinary(left, op, right)
    case Some(s) => s
    case None => BinaryOp(left, op, right)
  }

  function FoldExpression(e: Expression, form: FalseForm): Expression
    decreases e, 0
  {
    match e
    case BinaryOp(left, op, right) => BinaryNode(FoldExpression(left, form), op, FoldExpression(right, form))
    case FunctionCall(name, args, distinct) => FunctionCall(name, FoldExpressions(args, form), distinct)
    case SubQuery(query) => SubQuery(FoldPlan(query, form))
    case _ => e
  }

  function FoldExpressions(es: seq<Expression>, form: FalseForm): (fs: seq<Expression>)
    ensures |fs| == |es|
    decreases es, 1
  {
    seq(|es|, i requires 0 <= i < |es| => FoldExpression(es[i], form))
  }

  // ---- predicates ---------------------------------------------------------

  /** f64::EPSILON, 2^-52. */
  function Epsilon(): real {
    ScaleDown(1.0, 52)
  }

  /** `(l - r).abs() < f64::EPSILON`, in doubles. */
  predicate WithinEpsilon(l: F64, r: F64) {
    match Round(l - r)
    case None => false
    case Some(d) => Abs(d) < Epsilon()
  }

  /**
   Whether a predicate is read as a boolean constant. Two equal literals count only when
   they are booleans, so `1 = 1` is not recognized although `1 = 1.0` is. Under
   `SelfComparison` the comparison `false = false` is read as false.
   */
  function AsBoolConstant(p: Predicate, form: FalseForm): Option<bool> {
    if p.Comparison? && p.op == Compare(Eq) && p.left.Literal? && p.right.Literal? then
      if p.left.value == p.right.value then
        if form.Constant? && p.left.value.Bool? then Some(true) else AsBool(p.left.value)
      else if p.left.value.Num? && p.right.value.Num? then
        Some(WithinEpsilon(NumberToF64(p.left.value.n), NumberToF64(p.right.value.n)))
      else None
    else if form.Constant? && p.False? then Some(false)
    else None
  }

  function FoldAnd(left: Predicate, right: Predicate, form: FalseForm): Option<Predicate> {
    var l, r := AsBoolConstant(left, form), AsBoolConstant(right, form);
    if l == Some(false) || r == Some(false) then Some(BoolPredicate(false, form))
    else if l == Some(true) then Some(right)
    else if r == Some(true) then Some(left)
    else None
  }

  function FoldOr(left: Predicate, right: Predicate, form: FalseForm): Option<Predicate> {
    var l, r := AsBoolConstant(left, form), AsBoolConstant(right, form);
    if l == Some(true) || r == Some(true) then Some(BoolPredicate(true, form))
    else if l == Some(false) then Some(right)
    else if r == Some(false) then Some(left)
    else None
  }

  function FoldNotComparison(left: Expression, op: ComparisonOperator, right: Expression, form: FalseForm)
    : Option<Predicate>
  {
    if left.Literal? && right.Literal? && op.Compare? then
      match CompareValues(left.value, right.value)
      case None => None
      case Some(o) => Some(BoolPredicate(!Holds(op.rel, o), form))
    else None
  }

  /** What becomes of NOT over an already folded predicate. */
  function SimplifyNot(child: Predicate, form: FalseForm): Option<Predicate> {
    if child.Not? then Some(child.child)
    else if child.Comparison? then FoldNotComparison(child.left, child.op, child.right, form)
    else None
  }

  function SimplifyIsNull(e: Expression, form: FalseForm): Option<Predicate> {
    if e.Literal? then Some(BoolPredicate(e.value.Null?, form)) else None
  }

  function NotNode(child: Predicate, form: FalseForm): Predicate {
    match SimplifyNot(child, form)
    case Some(q) => q
    case None => Not(child)
  }

  function IsNullNode(e: Expression, form: FalseForm): Predicate {
    match SimplifyIsNull(e, form)
    case Some(q) => q
    case None => IsNull(e)
  }

  function AndNode(left: Predicate, right: Predicate, form: FalseForm): Predicate {
    match FoldAnd(left, right, form)
    case Some(q) => q
    case None => And(left, right)
  }

  function OrNode(left: Predicate, right: Predicate, form: FalseForm): Predicate {
    match FoldOr(left, right, form)
    case Some(q) => q
    case None => Or(left, right)
  }

  function FoldPredicate(p: Predicate, form: FalseForm): Predicate
    decreases p, 0
  {
    match p
    case Not(child) => NotNode(FoldPredicate(child, form), form)
    case IsNull(expr) => IsNullNode(FoldExpression(expr, form), form)
    case And(l, r) => AndNode(FoldPredicate(l, form), FoldPredicate(r, form), form)
    case Or(l, r) => OrNode(FoldPredicate(l, form), FoldPredicate(r, form), form)
    case Comparison(left, op, right) =>
      Comparison(FoldExpression(left, form), op, FoldExpression(right, form))
    case Between(expr, low, high) =>
      Between(FoldExpression(expr, form), FoldExpression(low, form), FoldExpression(high, form))
    case In(expr, target) =>
      In(FoldExpression(expr, form),
         match target
         case Values(values) => Values(FoldExpressions(values, form))
         case Query(_) => target)
    case Like(expr, pattern) => Like(FoldExpression(expr, form), pattern)
    case Exists(_) | True | False => p
  }

  // ---- plans --------------------------------------------------------------

  function FoldOptional(p: Option<Predicate>, form: FalseForm): Option<Predicate>
    decreases p, 1
  {
    match p
    case None => None
    case Some(q) => Some(FoldPredicate(q, form))
  }

  function FoldProjection(p: Projection, form: FalseForm): Projection
    decreases p, 1
  {
    match p
    case Expr(e, alias) => Expr(FoldExpression(e, form), alias)
    case _ => p
  }

  function FoldProjections(ps: seq<Projection>, form: FalseForm): seq<Projection>
    decreases ps, 2
  {
    seq(|ps|, i requires 0 <= i < |ps| => FoldProjection(ps[i], form))
  }

  function FoldGroup(c: Clause<Expression>, form: FalseForm): Clause<Expression>
    decreases c, 1
  {
    match c
    case Absent => Absent
    case Given(es) => Given(seq(|es|, i requires 0 <= i < |es| => FoldExpression(es[i], form)))
  }

  function FoldOrderBy(c: Clause<OrderByTerm>, form: FalseForm): Clause<OrderByTerm>
    decreases c, 1
  {
    match c
    case Absent => Absent
    case Given(ts) =>
      Given(seq(|ts|, i requires 0 <= i < |ts| => ts[i].(expr := FoldExpression(ts[i].expr, form))))
  }

  function FoldJoins(c: Clause<JoinClause>, form: FalseForm): Clause<JoinClause>
    decreases c, 1
  {
    match c
    case Absent => Absent
    case Given(js) =>
      Given(seq(|js|, i requires 0 <= i < |js| => js[i].(on := FoldPredicate(js[i].on, form))))
  }

  function FoldCtes(c: Clause<CommonTableExpression>, form: FalseForm): Clause<CommonTableExpression>
    decreases c, 1
  {
    match c
    case Absent => Absent
    case Given(cs) =>
      Given(seq(|cs|, i requires 0 <= i < |cs| => cs[i].(query := FoldPlan(cs[i].query, form))))
  }

  function FoldOperand(s: Option<SetOperationClause>, form: FalseForm): Option<SetOperationClause>
    decreases s, 1
  {
    match s
    case None => None
    case Some(c) => Some(c.(right := FoldPlan(c.right, form)))
  }

  function FoldPlan(plan: QueryPlan, form: FalseForm): QueryPlan
    decreases plan, 0
  {
    plan.(
      select := FoldProjections(plan.select, form),
      where_ := FoldOptional(plan.where_, form),
      groupBy := FoldGroup(plan.groupBy, form),
      having := FoldOptional(plan.having, form),
      orderBy := FoldOrderBy(plan.orderBy, form),
      joins := FoldJoins(plan.joins, form),
      ctes := FoldCtes(plan.ctes, form),
      setOperation := FoldOperand(plan.setOperation, form))
  }
}
