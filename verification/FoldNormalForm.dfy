/**
 The terms constant folding cannot change, described without running it: no node is one
 at which a rule fires. Folding always lands on such a term and leaves such terms alone.
 */
module FoldNormalForm {
  import opened Prelude
  import opened Ast
  import opened Fold

  predicate NormalExpression(e: Expression, form: FalseForm)
    decreases e, 0
  {
    match e
    case BinaryOp(left, op, right) =>
      NormalExpression(left, form) && NormalExpression(right, form) && SimplifyBinary(left, op, right).None?
    case FunctionCall(_, args, _) => NormalExpressions(args, form)
    case SubQuery(query) => NormalPlan(query, form)
    case _ => true
  }

  predicate NormalExpressions(es: seq<Expression>, form: FalseForm)
    decreases es, 1
  {
    forall i :: 0 <= i < |es| ==> NormalExpression(es[i], form)
  }

  predicate NormalPredicate(p: Predicate, form: FalseForm)
    decreases p, 0
  {
    match p
    case Not(child) => NormalPredicate(child, form) && SimplifyNot(child, form).None?
    case IsNull(expr) => NormalExpression(expr, form) && SimplifyIsNull(expr, form).None?
    case And(l, r) => NormalPredicate(l, form) && NormalPredicate(r, form) && FoldAnd(l, r, form).None?
    case Or(l, r) => NormalPredicate(l, form) && NormalPredicate(r, form) && FoldOr(l, r, form).None?
    case Comparison(left, _, right) => NormalExpression(left, form) && NormalExpression(right, form)
    case Between(expr, low, high) =>
      NormalExpression(expr, form) && NormalExpression(low, form) && NormalExpression(high, form)
    case In(expr, Values(values)) => NormalExpression(expr, form) && NormalExpressions(values, form)
    case In(expr, Query(_)) => NormalExpression(expr, form)
    case Like(expr, _) => NormalExpression(expr, form)
    case Exists(_) | True | False => true
  }

  predicate NormalOptional(p: Option<Predicate>, form: FalseForm)
    decreases p, 1
  {
    p.Some? ==> NormalPredicate(p.value, form)
  }

  predicate NormalProjection(p: Projection, form: FalseForm)
    decreases p, 1
  {
    p.Expr? ==> NormalExpression(p.expression, form)
  }

  predicate NormalProjections(ps: seq<Projection>, form: FalseForm)
    decreases ps, 2
  {
    forall i :: 0 <= i < |ps| ==> NormalProjection(ps[i], form)
  }

  predicate NormalGroup(c: Clause<Expression>, form: FalseForm)
    decreases c, 1
  {
    c.Given? ==> forall i :: 0 <= i < |c.items| ==> NormalExpression(c.items[i], form)
  }

  predicate NormalOrderBy(c: Clause<OrderByTerm>, form: FalseForm)
    decreases c, 1
  {
    c.Given? ==> forall i :: 0 <= i < |c.items| ==> NormalExpression(c.items[i].expr, form)
  }

  predicate NormalJoins(c: Clause<JoinClause>, form: FalseForm)
    decreases c, 1
  {
    c.Given? ==> forall i :: 0 <= i < |c.items| ==> NormalPredicate(c.items[i].on, form)
  }

  predicate NormalCtes(c: Clause<CommonTableExpression>, form: FalseForm)
    decreases c, 1
  {
    c.Given? ==> forall i :: 0 <= i < |c.items| ==> NormalPlan(c.items[i].query, form)
  }

  predicate NormalOperand(s: Option<SetOperationClause>, form: FalseForm)
    decreases s, 1
  {
    s.Some? ==> NormalPlan(s.value.right, form)
  }

  predicate NormalPlan(plan: QueryPlan, form: FalseForm)
    decreases plan, 0
  {
    && NormalProjections(plan.select, form)
    && NormalOptional(plan.where_, form)
    && NormalGroup(plan.groupBy, form)
    && NormalOptional(plan.having, form)
    && NormalOrderBy(plan.orderBy, form)
    && NormalJoins(plan.joins, form)
    && NormalCtes(plan.ctes, form)
    && NormalOperand(plan.setOperation, form)
  }

  // ---- folding reaches a normal form --------------------------------------

  lemma BinaryNodeIsNormal(left: Expression, op: BinaryOperator, right: Expression, form: FalseForm)
    requires NormalExpression(left, form) && NormalExpression(right, form)
    ensures NormalExpression(BinaryNode(left, op, right), form)
  {
    hide SimplifyBinary;
  }

  lemma BoolPredicateIsNormal(b: bool, form: FalseForm)
    ensures NormalPredicate(BoolPredicate(b, form), form)
  {
  }

  lemma UnaryNodeIsNormal(child: Predicate, e: Expression, form: FalseForm)
    ensures NormalPredicate(child, form) ==> NormalPredicate(NotNode(child, form), form)
    ensures NormalExpression(e, form) ==> NormalPredicate(IsNullNode(e, form), form)
  {
    BoolPredicateIsNormal(true, form);
    BoolPredicateIsNormal(false, form);
  }

  lemma ConnectiveNodeIsNormal(l: Predicate, r: Predicate, form: FalseForm)
    requires NormalPredicate(l, form) && NormalPredicate(r, form)
    ensures NormalPredicate(AndNode(l, r, form), form) && NormalPredicate(OrNode(l, r, form), form)
  {
    hide AsBoolConstant, BoolPredicate;
    BoolPredicateIsNormal(true, form);
    BoolPredicateIsNormal(false, form);
  }

  lemma {:induction false} FoldedExpressionIsNormal(e: Expression, form: FalseForm)
    ensures NormalExpression(FoldExpression(e, form), form)
    decreases e, 0
  {
    hide BinaryNode, SimplifyBinary;
    match e
    case BinaryOp(left, op, right) =>
      FoldedExpressionIsNormal(left, form);
      FoldedExpressionIsNormal(right, form);
      BinaryNodeIsNormal(FoldExpression(left, form), op, FoldExpression(right, form), form);
    case FunctionCall(_, args, _) => FoldedExpressionsAreNormal(args, form);
    case SubQuery(query) => FoldedPlanIsNormal(query, form);
    case _ =>
  }

  lemma {:induction false} FoldedExpressionsAreNormal(es: seq<Expression>, form: FalseForm)
    ensures NormalExpressions(FoldExpressions(es, form), form)
    decreases es, 1
  {
    forall i | 0 <= i < |es| ensures NormalExpression(FoldExpressions(es, form)[i], form) {
      FoldedExpressionIsNormal(es[i], form);
    }
  }

  lemma {:induction false} FoldedPredicateIsNormal(p: Predicate, form: FalseForm)
    ensures NormalPredicate(FoldPredicate(p, form), form)
    decreases p, 0
  {
    hide NotNode, IsNullNode, AndNode, OrNode, SimplifyNot, SimplifyIsNull, FoldAnd, FoldOr;
    match p
    case Not(child) =>
      FoldedPredicateIsNormal(child, form);
      UnaryNodeIsNormal(FoldPredicate(child, form), Star, form);
    case IsNull(expr) =>
      FoldedExpressionIsNormal(expr, form);
      UnaryNodeIsNormal(True, FoldExpression(expr, form), form);
    case And(l, r) =>
      FoldedPredicateIsNormal(l, form);
      FoldedPredicateIsNormal(r, form);
      ConnectiveNodeIsNormal(FoldPredicate(l, form), FoldPredicate(r, form), form);
    case Or(l, r) =>
      FoldedPredicateIsNormal(l, form);
      FoldedPredicateIsNormal(r, form);
      ConnectiveNodeIsNormal(FoldPredicate(l, form), FoldPredicate(r, form), form);
    case Comparison(left, _, right) =>
      FoldedExpressionIsNormal(left, form);
      FoldedExpressionIsNormal(right, form);
    case Between(expr, low, high) =>
      FoldedExpressionIsNormal(expr, form);
      FoldedExpressionIsNormal(low, form);
      FoldedExpressionIsNormal(high, form);
    case In(expr, target) =>
      FoldedExpressionIsNormal(expr, form);
      if target.Values? { FoldedExpressionsAreNormal(target.values, form); }
    case Like(expr, _) => FoldedExpressionIsNormal(expr, form);
    case _ =>
  }

  lemma {:induction false} FoldedOptionalIsNormal(p: Option<Predicate>, form: FalseForm)
    ensures NormalOptional(FoldOptional(p, form), form)
    decreases p, 1
  {
    if p.Some? { FoldedPredicateIsNormal(p.value, form); }
  }

  lemma {:induction false} FoldedProjectionsAreNormal(ps: seq<Projection>, form: FalseForm)
    ensures NormalProjections(FoldProjections(ps, form), form)
    decreases ps, 2
  {
    forall i | 0 <= i < |ps| ensures NormalProjection(FoldProjection(ps[i], form), form) {
      assert ps decreases to ps[i];
      if ps[i].Expr? { FoldedExpressionIsNormal(ps[i].expression, form); }
    }
  }

  lemma {:induction false} FoldedGroupIsNormal(c: Clause<Expression>, form: FalseForm)
    ensures NormalGroup(FoldGroup(c, form), form)
    decreases c, 1
  {
    forall i | c.Given? && 0 <= i < |c.items| { FoldedExpressionIsNormal(c.items[i], form); }
  }

  lemma {:induction false} FoldedOrderByIsNormal(c: Clause<OrderByTerm>, form: FalseForm)
    ensures NormalOrderBy(FoldOrderBy(c, form), form)
    decreases c, 1
  {
    forall i | c.Given? && 0 <= i < |c.items|
      ensures NormalExpression(FoldExpression(c.items[i].expr, form), form)
    {
      assert c decreases to c.items[i];
      FoldedExpressionIsNormal(c.items[i].expr, form);
    }
  }

  lemma {:induction false} FoldedJoinsAreNormal(c: Clause<JoinClause>, form: FalseForm)
    ensures NormalJoins(FoldJoins(c, form), form)
    decreases c, 1
  {
    forall i | c.Given? && 0 <= i < |c.items|
      ensures NormalPredicate(FoldPredicate(c.items[i].on, form), form)
    {
      assert c decreases to c.items[i];
      FoldedPredicateIsNormal(c.items[i].on, form);
    }
  }

  lemma {:induction false} FoldedCtesAreNormal(c: Clause<CommonTableExpression>, form: FalseForm)
    ensures NormalCtes(FoldCtes(c, form), form)
    decreases c, 1
  {
    forall i | c.Given? && 0 <= i < |c.items|
      ensures NormalPlan(FoldPlan(c.items[i].query, form), form)
    {
      assert c decreases to c.items[i];
      FoldedPlanIsNormal(c.items[i].query, form);
    }
  }

  lemma {:induction false} FoldedOperandIsNormal(s: Option<SetOperationClause>, form: FalseForm)
    ensures NormalOperand(FoldOperand(s, form), form)
    decreases s, 1
  {
    if s.Some? { FoldedPlanIsNormal(s.value.right, form); }
  }

  lemma {:induction false} FoldedPlanIsNormal(plan: QueryPlan, form: FalseForm)
    ensures NormalPlan(FoldPlan(plan, form), form)
    decreases plan, 0
  {
    FoldedProjectionsAreNormal(plan.select, form);
    FoldedOptionalIsNormal(plan.where_, form);
    FoldedGroupIsNormal(plan.groupBy, form);
    FoldedOptionalIsNormal(plan.having, form);
    FoldedOrderByIsNormal(plan.orderBy, form);
    FoldedJoinsAreNormal(plan.joins, form);
    FoldedCtesAreNormal(plan.ctes, form);
    FoldedOperandIsNormal(plan.setOperation, form);
  }

  // ---- normal forms are left alone ----------------------------------------

  lemma {:induction false} NormalExpressionIsKept(e: Expression, form: FalseForm)
    requires NormalExpression(e, form)
    ensures FoldExpression(e, form) == e
    decreases e, 0
  {
    match e
    case BinaryOp(left, op, right) =>
      NormalExpressionIsKept(left, form);
      NormalExpressionIsKept(right, form);
    case FunctionCall(_, args, _) => NormalExpressionsAreKept(args, form);
    case SubQuery(query) => NormalPlanIsKept(query, form);
    case _ =>
  }

  lemma {:induction false} NormalExpressionsAreKept(es: seq<Expression>, form: FalseForm)
    requires NormalExpressions(es, form)
    ensures FoldExpressions(es, form) == es
    decreases es, 1
  {
    forall i | 0 <= i < |es| { NormalExpressionIsKept(es[i], form); }
  }

  lemma {:induction false} NormalPredicateIsKept(p: Predicate, form: FalseForm)
    requires NormalPredicate(p, form)
    ensures FoldPredicate(p, form) == p
    decreases p, 0
  {
    match p
    case Not(child) => NormalPredicateIsKept(child, form);
    case IsNull(expr) => NormalExpressionIsKept(expr, form);
    case And(l, r) => NormalPredicateIsKept(l, form); NormalPredicateIsKept(r, form);
    case Or(l, r) => NormalPredicateIsKept(l, form); NormalPredicateIsKept(r, form);
    case Comparison(left, _, right) =>
      NormalExpressionIsKept(left, form);
      NormalExpressionIsKept(right, form);
    case Between(expr, low, high) =>
      NormalExpressionIsKept(expr, form);
      NormalExpressionIsKept(low, form);
      NormalExpressionIsKept(high, form);
    case In(expr, target) =>
      NormalExpressionIsKept(expr, form);
      if target.Values? { NormalExpressionsAreKept(target.values, form); }
    case Like(expr, _) => NormalExpressionIsKept(expr, form);
    case _ =>
  }

  lemma {:induction false} NormalOptionalIsKept(p: Option<Predicate>, form: FalseForm)
    requires NormalOptional(p, form)
    ensures FoldOptional(p, form) == p
    decreases p, 1
  {
    if p.Some? { NormalPredicateIsKept(p.value, form); }
  }

  lemma {:induction false} NormalProjectionsAreKept(ps: seq<Projection>, form: FalseForm)
    requires NormalProjections(ps, form)
    ensures FoldProjections(ps, form) == ps
    decreases ps, 2
  {
    forall i | 0 <= i < |ps| ensures FoldProjection(ps[i], form) == ps[i] {
      assert ps decreases to ps[i];
      assert NormalProjection(ps[i], form);
      if ps[i].Expr? { NormalExpressionIsKept(ps[i].expression, form); }
    }
  }

  lemma {:induction false} NormalGroupIsKept(c: Clause<Expression>, form: FalseForm)
    requires NormalGroup(c, form)
    ensures FoldGroup(c, form) == c
    decreases c, 1
  {
    forall i | c.Given? && 0 <= i < |c.items| { NormalExpressionIsKept(c.items[i], form); }
    if c.Given? { assert FoldGroup(c, form).items == c.items; }
  }

  lemma {:induction false} NormalOrderByIsKept(c: Clause<OrderByTerm>, form: FalseForm)
    requires NormalOrderBy(c, form)
    ensures FoldOrderBy(c, form) == c
    decreases c, 1
  {
    forall i | c.Given? && 0 <= i < |c.items|
      ensures FoldExpression(c.items[i].expr, form) == c.items[i].expr
    {
      assert c decreases to c.items[i];
      NormalExpressionIsKept(c.items[i].expr, form);
    }
    if c.Given? { assert FoldOrderBy(c, form).items == c.items; }
  }

  lemma {:induction false} NormalJoinsAreKept(c: Clause<JoinClause>, form: FalseForm)
    requires NormalJoins(c, form)
    ensures FoldJoins(c, form) == c
    decreases c, 1
  {
    forall i | c.Given? && 0 <= i < |c.items|
      ensures FoldPredicate(c.items[i].on, form) == c.items[i].on
    {
      assert c decreases to c.items[i];
      NormalPredicateIsKept(c.items[i].on, form);
    }
    if c.Given? { assert FoldJoins(c, form).items == c.items; }
  }

  lemma {:induction false} NormalCtesAreKept(c: Clause<CommonTableExpression>, form: FalseForm)
    requires NormalCtes(c, form)
    ensures FoldCtes(c, form) == c
    decreases c, 1
  {
    forall i | c.Given? && 0 <= i < |c.items|
      ensures FoldPlan(c.items[i].query, form) == c.items[i].query
    {
      assert c decreases to c.items[i];
      NormalPlanIsKept(c.items[i].query, form);
    }
    if c.Given? { assert FoldCtes(c, form).items == c.items; }
  }

  lemma {:induction false} NormalOperandIsKept(s: Option<SetOperationClause>, form: FalseForm)
    requires NormalOperand(s, form)
    ensures FoldOperand(s, form) == s
    decreases s, 1
  {
    if s.Some? { NormalPlanIsKept(s.value.right, form); }
  }

  lemma {:induction false} NormalPlanIsKept(plan: QueryPlan, form: FalseForm)
    requires NormalPlan(plan, form)
    ensures FoldPlan(plan, form) == plan
    decreases plan, 0
  {
    NormalProjectionsAreKept(plan.select, form);
    NormalOptionalIsKept(plan.where_, form);
    NormalGroupIsKept(plan.groupBy, form);
    NormalOptionalIsKept(plan.having, form);
    NormalOrderByIsKept(plan.orderBy, form);
    NormalJoinsAreKept(plan.joins, form);
    NormalCtesAreKept(plan.ctes, form);
    NormalOperandIsKept(plan.setOperation, form);
  }

  // ---- main results -------------------------------------------------------

  /** The fixed points of folding are exactly the normal forms. */
  lemma FixedPointsAreNormalForms(plan: QueryPlan, form: FalseForm)
    ensures FoldPlan(plan, form) == plan <==> NormalPlan(plan, form)
  {
    FoldedPlanIsNormal(plan, form);
    if NormalPlan(plan, form) { NormalPlanIsKept(plan, form); }
  }

  lemma FoldingIsIdempotent(plan: QueryPlan, p: Predicate, e: Expression, form: FalseForm)
    ensures FoldPlan(FoldPlan(plan, form), form) == FoldPlan(plan, form)
    ensures FoldPredicate(FoldPredicate(p, form), form) == FoldPredicate(p, form)
    ensures FoldExpression(FoldExpression(e, form), form) == FoldExpression(e, form)
  {
    FoldedPlanIsNormal(plan, form);
    NormalPlanIsKept(FoldPlan(plan, form), form);
    FoldedPredicateIsNormal(p, form);
    NormalPredicateIsKept(FoldPredicate(p, form), form);
    FoldedExpressionIsNormal(e, form);
    NormalExpressionIsKept(FoldExpression(e, form), form);
  }
}
