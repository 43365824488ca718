/**
 How much there is left to fold: the number of operators, connectives and null checks.
 Folding never adds one, and removes at least one whenever it changes anything.
 */
module FoldMeasure {
  import opened Prelude
  import opened Ast
  import opened Fold

  function Sum(xs: seq<nat>): nat {
    if xs == [] then 0 else xs[0] + Sum(xs[1..])
  }

  lemma {:induction false} SumDrops(xs: seq<nat>, ys: seq<nat>)
    requires |xs| == |ys| && forall i :: 0 <= i < |xs| ==> ys[i] <= xs[i]
    ensures Sum(ys) <= Sum(xs)
    ensures ys != xs ==> Sum(ys) < Sum(xs)
  {
    if xs != [] {
      SumDrops(xs[1..], ys[1..]);
      assert ys != xs ==> ys[0] < xs[0] || ys[1..] != xs[1..] by {
        assert xs == [xs[0]] + xs[1..] && ys == [ys[0]] + ys[1..];
      }
    }
  }

  function SizeE(e: Expression): nat
    decreases e, 0
  {
    match e
    case BinaryOp(left, _, right) => 1 + SizeE(left) + SizeE(right)
    case FunctionCall(_, args, _) => SizeEs(args)
    case SubQuery(query) => SizePlan(query)
    case _ => 0
  }

  function SizeEs(es: seq<Expression>): nat
    decreases es, 1
  {
    Sum(seq(|es|, i requires 0 <= i < |es| => SizeE(es[i])))
  }

  function SizeP(p: Predicate): nat
    decreases p, 0
  {
    match p
    case Not(child) => 1 + SizeP(child)
    case IsNull(expr) => 1 + SizeE(expr)
    case And(l, r) => 1 + SizeP(l) + SizeP(r)
    case Or(l, r) => 1 + SizeP(l) + SizeP(r)
    case Comparison(left, _, right) => SizeE(left) + SizeE(right)
    case Between(expr, low, high) => SizeE(expr) + SizeE(low) + SizeE(high)
    case In(expr, Values(values)) => SizeE(expr) + SizeEs(values)
    case In(expr, Query(_)) => SizeE(expr)
    case Like(expr, _) => SizeE(expr)
    case Exists(_) | True | False => 0
  }

  function SizeOptional(p: Option<Predicate>): nat
    decreases p, 1
  {
    if p.Some? then SizeP(p.value) else 0
  }

  function SizeProjection(p: Projection): nat
    decreases p, 1
  {
    if p.Expr? then SizeE(p.expression) else 0
  }

  function SizeProjections(ps: seq<Projection>): nat
    decreases ps, 2
  {
    Sum(seq(|ps|, i requires 0 <= i < |ps| => SizeProjection(ps[i])))
  }

  function SizeGroup(c: Clause<Expression>): nat
    decreases c, 1
  {
    match c
    case Absent => 0
    case Given(es) => Sum(seq(|es|, i requires 0 <= i < |es| => SizeE(es[i])))
  }

  function SizeOrderBy(c: Clause<OrderByTerm>): nat
    decreases c, 1
  {
    match c
    case Absent => 0
    case Given(ts) => Sum(seq(|ts|, i requires 0 <= i < |ts| => SizeE(ts[i].expr)))
  }

  function SizeJoins(c: Clause<JoinClause>): nat
    decreases c, 1
  {
    match c
    case Absent => 0
    case Given(js) => Sum(seq(|js|, i requires 0 <= i < |js| => SizeP(js[i].on)))
  }

  function SizeCtes(c: Clause<CommonTableExpression>): nat
    decreases c, 1
  {
    match c
    case Absent => 0
    case Given(cs) => Sum(seq(|cs|, i requires 0 <= i < |cs| => SizePlan(cs[i].query)))
  }

  function SizeOperand(s: Option<SetOperationClause>): nat
    decreases s, 1
  {
    if s.Some? then SizePlan(s.value.right) else 0
  }

  function SizePlan(plan: QueryPlan): nat
    decreases plan, 0
  {
    SizeProjections(plan.select) + SizeOptional(plan.where_) + SizeGroup(plan.groupBy)
    + SizeOptional(plan.having) + SizeOrderBy(plan.orderBy) + SizeJoins(plan.joins)
    + SizeCtes(plan.ctes) + SizeOperand(plan.setOperation)
  }

  /** `after` is smaller than `before` if the thing measured changed, and otherwise no larger. */
  predicate Drops(before: nat, after: nat, changed: bool) {
    after <= before && (changed ==> after < before)
  }

  lemma SimplifiedBinaryIsSmaller(left: Expression, op: BinaryOperator, right: Expression)
    ensures var s := SimplifyBinary(left, op, right);
            s.Some? ==> SizeE(s.value) <= SizeE(left) + SizeE(right)
  {
    hide SimplifyBinary;
  }

  lemma {:induction false} ExpressionDrops(e: Expression, form: FalseForm)
    ensures Drops(SizeE(e), SizeE(FoldExpression(e, form)), FoldExpression(e, form) != e)
    decreases e, 0
  {
    match e
    case BinaryOp(left, op, right) =>
      ExpressionDrops(left, form);
      ExpressionDrops(right, form);
      SimplifiedBinaryIsSmaller(FoldExpression(left, form), op, FoldExpression(right, form));
    case FunctionCall(_, args, _) => ExpressionsDrop(args, form);
    case SubQuery(query) => PlanDrops(query, form);
    case _ =>
  }

  lemma {:induction false} ExpressionsDrop(es: seq<Expression>, form: FalseForm)
    ensures Drops(SizeEs(es), SizeEs(FoldExpressions(es, form)), FoldExpressions(es, form) != es)
    decreases es, 1
  {
    var fs := FoldExpressions(es, form);
    var before := seq(|es|, i requires 0 <= i < |es| => SizeE(es[i]));
    var after := seq(|fs|, i requires 0 <= i < |fs| => SizeE(fs[i]));
    forall i | 0 <= i < |es| ensures Drops(before[i], after[i], fs[i] != es[i]) {
      ExpressionDrops(es[i], form);
    }
    SumDrops(before, after);
  }

  lemma BoolPredicateIsFolded(b: bool, form: FalseForm)
    ensures SizeP(BoolPredicate(b, form)) == 0
  {
  }

  lemma SimplifiedNotIsSmaller(child: Predicate, form: FalseForm)
    ensures SimplifyNot(child, form).Some? ==> SizeP(SimplifyNot(child, form).value) <= SizeP(child)
  {
    BoolPredicateIsFolded(true, form);
    BoolPredicateIsFolded(false, form);
  }

  lemma SimplifiedConnectiveIsSmaller(l: Predicate, r: Predicate, form: FalseForm)
    ensures FoldAnd(l, r, form).Some? ==> SizeP(FoldAnd(l, r, form).value) <= SizeP(l) + SizeP(r)
    ensures FoldOr(l, r, form).Some? ==> SizeP(FoldOr(l, r, form).value) <= SizeP(l) + SizeP(r)
  {
    BoolPredicateIsFolded(true, form);
    BoolPredicateIsFolded(false, form);
  }

  lemma {:induction false} ConnectiveDrops(p: Predicate, form: FalseForm)
    requires p.And? || p.Or? || p.Not? || p.IsNull?
    ensures Drops(SizeP(p), SizeP(FoldPredicate(p, form)), FoldPredicate(p, form) != p)
    decreases p, 0
  {
    hide FoldExpression, SizeE, FoldAnd, FoldOr, SimplifyNot, BoolPredicate;
    match p
    case Not(child) =>
      PredicateDrops(child, form);
      SimplifiedNotIsSmaller(FoldPredicate(child, form), form);
    case IsNull(expr) =>
      ExpressionDrops(expr, form);
      BoolPredicateIsFolded(true, form);
      BoolPredicateIsFolded(false, form);
    case And(l, r) =>
      PredicateDrops(l, form);
      PredicateDrops(r, form);
      SimplifiedConnectiveIsSmaller(FoldPredicate(l, form), FoldPredicate(r, form), form);
    case Or(l, r) =>
      PredicateDrops(l, form);
      PredicateDrops(r, form);
      SimplifiedConnectiveIsSmaller(FoldPredicate(l, form), FoldPredicate(r, form), form);
  }

  lemma {:induction false} PredicateDrops(p: Predicate, form: FalseForm)
    ensures Drops(SizeP(p), SizeP(FoldPredicate(p, form)), FoldPredicate(p, form) != p)
    decreases p, 1
  {
    match p
    case Not(_) | IsNull(_) | And(_, _) | Or(_, _) => ConnectiveDrops(p, form);
    case Comparison(left, _, right) => ExpressionDrops(left, form); ExpressionDrops(right, form);
    case Between(expr, low, high) =>
      ExpressionDrops(expr, form);
      ExpressionDrops(low, form);
      ExpressionDrops(high, form);
    case In(expr, target) =>
      ExpressionDrops(expr, form);
      if target.Values? { ExpressionsDrop(target.values, form); }
    case Like(expr, _) => ExpressionDrops(expr, form);
    case _ =>
  }

  lemma {:induction false} OptionalDrops(p: Option<Predicate>, form: FalseForm)
    ensures Drops(SizeOptional(p), SizeOptional(FoldOptional(p, form)), FoldOptional(p, form) != p)
    decreases p, 2
  {
    if p.Some? { PredicateDrops(p.value, form); }
  }

  lemma {:induction false} ProjectionsDrop(ps: seq<Projection>, form: FalseForm)
    ensures Drops(SizeProjections(ps), SizeProjections(FoldProjections(ps, form)), FoldProjections(ps, form) != ps)
    decreases ps, 2
  {
    var qs := FoldProjections(ps, form);
    var before := seq(|ps|, i requires 0 <= i < |ps| => SizeProjection(ps[i]));
    var after := seq(|qs|, i requires 0 <= i < |qs| => SizeProjection(qs[i]));
    forall i | 0 <= i < |ps| ensures Drops(before[i], after[i], qs[i] != ps[i]) {
      assert ps decreases to ps[i];
      assert qs[i] == FoldProjection(ps[i], form);
      if ps[i].Expr? { ExpressionDrops(ps[i].expression, form); }
    }
    SumDrops(before, after);
  }

  lemma {:induction false} GroupDrops(c: Clause<Expression>, form: FalseForm)
    ensures Drops(SizeGroup(c), SizeGroup(FoldGroup(c, form)), FoldGroup(c, form) != c)
    decreases c, 1
  {
    if c.Given? {
      var es, fs := c.items, FoldGroup(c, form).items;
      var before := seq(|es|, i requires 0 <= i < |es| => SizeE(es[i]));
      var after := seq(|fs|, i requires 0 <= i < |fs| => SizeE(fs[i]));
      forall i | 0 <= i < |es| ensures Drops(before[i], after[i], fs[i] != es[i]) {
        ExpressionDrops(es[i], form);
      }
      SumDrops(before, after);
    }
  }

  lemma {:induction false} OrderByDrops(c: Clause<OrderByTerm>, form: FalseForm)
    ensures Drops(SizeOrderBy(c), SizeOrderBy(FoldOrderBy(c, form)), FoldOrderBy(c, form) != c)
    decreases c, 1
  {
    if c.Given? {
      var ts, us := c.items, FoldOrderBy(c, form).items;
      var before := seq(|ts|, i requires 0 <= i < |ts| => SizeE(ts[i].expr));
      var after := seq(|us|, i requires 0 <= i < |us| => SizeE(us[i].expr));
      forall i | 0 <= i < |ts| ensures Drops(before[i], after[i], us[i] != ts[i]) {
        assert c decreases to ts[i];
        ExpressionDrops(ts[i].expr, form);
      }
      SumDrops(before, after);
    }
  }

  lemma {:induction false} JoinsDrop(c: Clause<JoinClause>, form: FalseForm)
    ensures Drops(SizeJoins(c), SizeJoins(FoldJoins(c, form)), FoldJoins(c, form) != c)
    decreases c, 1
  {
    if c.Given? {
      var js, ks := c.items, FoldJoins(c, form).items;
      var before := seq(|js|, i requires 0 <= i < |js| => SizeP(js[i].on));
      var after := seq(|ks|, i requires 0 <= i < |ks| => SizeP(ks[i].on));
      forall i | 0 <= i < |js| ensures Drops(before[i], after[i], ks[i] != js[i]) {
        assert c decreases to js[i];
        PredicateDrops(js[i].on, form);
      }
      SumDrops(before, after);
    }
  }

  lemma {:induction false} CtesDrop(c: Clause<CommonTableExpression>, form: FalseForm)
    ensures Drops(SizeCtes(c), SizeCtes(FoldCtes(c, form)), FoldCtes(c, form) != c)
    decreases c, 1
  {
    if c.Given? {
      var cs, ds := c.items, FoldCtes(c, form).items;
      var before := seq(|cs|, i requires 0 <= i < |cs| => SizePlan(cs[i].query));
      var after := seq(|ds|, i requires 0 <= i < |ds| => SizePlan(ds[i].query));
      forall i | 0 <= i < |cs| ensures Drops(before[i], after[i], ds[i] != cs[i]) {
        assert c decreases to cs[i];
        PlanDrops(cs[i].query, form);
      }
      SumDrops(before, after);
    }
  }

  lemma {:induction false} OperandDrops(s: Option<SetOperationClause>, form: FalseForm)
    ensures Drops(SizeOperand(s), SizeOperand(FoldOperand(s, form)), FoldOperand(s, form) != s)
    decreases s, 1
  {
    if s.Some? { PlanDrops(s.value.right, form); }
  }

  /** Folding that changes a plan leaves strictly less to fold. */
  lemma {:induction false} PlanDrops(plan: QueryPlan, form: FalseForm)
    ensures SizePlan(FoldPlan(plan, form)) <= SizePlan(plan)
    ensures FoldPlan(plan, form) != plan ==> SizePlan(FoldPlan(plan, form)) < SizePlan(plan)
    decreases plan, 0
  {
    ProjectionsDrop(plan.select, form);
    OptionalDrops(plan.where_, form);
    GroupDrops(plan.groupBy, form);
    OptionalDrops(plan.having, form);
    OrderByDrops(plan.orderBy, form);
    JoinsDrop(plan.joins, form);
    CtesDrop(plan.ctes, form);
    OperandDrops(plan.setOperation, form);
  }
}
