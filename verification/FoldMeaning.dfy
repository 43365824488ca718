/**
 Constant folding preserves meaning, on whole expressions, predicates and plans.

 The conditions are about one row: what the operands of a node are worth there, before and
 after folding. `SoundExpression` asks `NodeKeeps` of every node, `SoundPredicate` also that no
 constant be misread, and `SoundPlan` that on the rows the engine evaluates no encoded false
 reach a clause. They come in two fidelities: the folder may write an integral double as an Int
 literal, which is the same number but not the same value, and not everything takes the one for
 the other.
 */
module FoldMeaning {
  import opened Prelude
  import opened Binary64
  import opened Json
  import opened Ast
  import opened Values
  import opened Fold
  import opened Semantics
  import opened FoldExpressionMeaning
  import opened FoldPredicateMeaning

  ghost function SideOf(eng: Engine, e: Expression, form: FalseForm, rows: set<Row>, row: Row): Side {
    Side(Eval(eng, e, rows, row), FoldExpression(e, form), Eval(eng, FoldExpression(e, form), rows, row))
  }

  ghost predicate SoundExpression(eng: Engine, e: Expression, form: FalseForm, k: Fidelity, rows: set<Row>, row: Row)
    decreases e, 0
  {
    match e
    case BinaryOp(left, op, right) =>
      && SoundExpression(eng, left, form, Numeric, rows, row)
      && SoundExpression(eng, right, form, Numeric, rows, row)
      && NodeKeeps(eng, k, SideOf(eng, left, form, rows, row), op, SideOf(eng, right, form, rows, row))
    case FunctionCall(_, args, _) => SoundTables(eng, args, form, Exact, rows)
    case SubQuery(query) => SoundPlan(eng, query, form, k, row)
    case _ => true
  }

  /** On every row. */
  ghost predicate SoundTable(eng: Engine, e: Expression, form: FalseForm, k: Fidelity, rows: set<Row>)
    decreases e, 1
  {
    forall row | row in rows :: SoundExpression(eng, e, form, k, rows, row)
  }

  ghost predicate SoundTables(eng: Engine, es: seq<Expression>, form: FalseForm, k: Fidelity, rows: set<Row>)
    decreases es, 2
  {
    forall i :: 0 <= i < |es| ==> SoundTable(eng, es[i], form, k, rows)
  }

  /** Comparing the two expressions in the row is comparing their folded forms. */
  ghost predicate ComparedAlike(
    eng: Engine, left: Expression, right: Expression, form: FalseForm, rows: set<Row>, row: Row)
  {
    PairKeeps(Eval(eng, left, rows, row), Eval(eng, FoldExpression(left, form), rows, row),
              Eval(eng, right, rows, row), Eval(eng, FoldExpression(right, form), rows, row))
  }

  /** A literal under IS NULL is not null to the database either. */
  predicate NullTestKeeps(eng: Engine, f: Expression) {
    f.Literal? && !f.value.Null? ==> LiteralOutcome(eng, f.value, f.dataType) != Ok(VNull)
  }

  /** Every expression inside is sound in the row. */
  ghost predicate SoundWithin(eng: Engine, p: Predicate, form: FalseForm, rows: set<Row>, row: Row)
    decreases p, 0
  {
    match p
    case Not(child) => SoundWithin(eng, child, form, rows, row)
    case IsNull(expr) =>
      SoundExpression(eng, expr, form, Numeric, rows, row) && NullTestKeeps(eng, FoldExpression(expr, form))
    case And(l, r) => SoundWithin(eng, l, form, rows, row) && SoundWithin(eng, r, form, rows, row)
    case Or(l, r) => SoundWithin(eng, l, form, rows, row) && SoundWithin(eng, r, form, rows, row)
    case Comparison(left, Compare(_), right) =>
      && SoundExpression(eng, left, form, Numeric, rows, row) && SoundExpression(eng, right, form, Numeric, rows, row)
      && ComparedAlike(eng, left, right, form, rows, row)
    case Comparison(left, _, right) =>
      SoundExpression(eng, left, form, Exact, rows, row) && SoundExpression(eng, right, form, Exact, rows, row)
    case Between(expr, low, high) =>
      && SoundExpression(eng, expr, form, Numeric, rows, row)
      && SoundExpression(eng, low, form, Numeric, rows, row) && SoundExpression(eng, high, form, Numeric, rows, row)
      && ComparedAlike(eng, expr, low, form, rows, row) && ComparedAlike(eng, expr, high, form, rows, row)
    case In(expr, Values(values)) =>
      && SoundExpression(eng, expr, form, Numeric, rows, row)
      && (forall i :: 0 <= i < |values| ==> SoundExpression(eng, values[i], form, Numeric, rows, row))
      && (forall i :: 0 <= i < |values| ==> ComparedAlike(eng, expr, values[i], form, rows, row))
    case In(expr, Query(_)) => SoundExpression(eng, expr, form, Exact, rows, row)
    case Like(expr, _) => SoundExpression(eng, expr, form, Exact, rows, row)
    case Exists(_) | True | False => true
  }

  /** Folding keeps the predicate's truth value in the row, or turns false into the encoded false. */
  ghost predicate SoundPredicate(eng: Engine, p: Predicate, form: FalseForm, rows: set<Row>, row: Row)
    decreases p, 1
  {
    SoundWithin(eng, p, form, rows, row) && !ModeOf(eng, p, form).Entangled? && !ModeOf(eng, p, form).Misread?
  }

  /** On every row folding keeps the truth value. */
  ghost predicate SoundCondition(eng: Engine, p: Predicate, form: FalseForm, rows: set<Row>)
    decreases p, 2
  {
    ModeOf(eng, p, form) != EncodedFalse && forall row | row in rows :: SoundPredicate(eng, p, form, rows, row)
  }

  ghost predicate SoundOptional(eng: Engine, p: Option<Predicate>, form: FalseForm, rows: set<Row>)
    decreases p, 3
  {
    p.Some? ==> SoundCondition(eng, p.value, form, rows)
  }

  ghost predicate SoundProjection(eng: Engine, p: Projection, form: FalseForm, k: Fidelity, rows: set<Row>)
    decreases p, 2
  {
    p.Expr? ==> SoundTable(eng, p.expression, form, k, rows)
  }

  ghost predicate SoundProjections(eng: Engine, ps: seq<Projection>, form: FalseForm, k: Fidelity, rows: set<Row>)
    decreases ps, 3
  {
    forall i :: 0 <= i < |ps| ==> SoundProjection(eng, ps[i], form, k, rows)
  }

  ghost predicate SoundGroup(eng: Engine, c: Clause<Expression>, form: FalseForm, k: Fidelity, rows: set<Row>)
    decreases c, 3
  {
    c.Given? ==> forall i :: 0 <= i < |c.items| ==> SoundTable(eng, c.items[i], form, k, rows)
  }

  ghost predicate SoundOrderBy(eng: Engine, c: Clause<OrderByTerm>, form: FalseForm, k: Fidelity, rows: set<Row>)
    decreases c, 3
  {
    c.Given? ==> forall i :: 0 <= i < |c.items| ==> SoundTable(eng, c.items[i].expr, form, k, rows)
  }

  ghost predicate SoundJoins(eng: Engine, c: Clause<JoinClause>, form: FalseForm, rows: set<Row>)
    decreases c, 3
  {
    c.Given? ==> forall i :: 0 <= i < |c.items| ==> SoundCondition(eng, c.items[i].on, form, rows)
  }

  ghost predicate SoundClauses(eng: Engine, plan: QueryPlan, form: FalseForm, k: Fidelity, rows: set<Row>)
    decreases plan, 1
  {
    && SoundProjections(eng, plan.select, form, k, rows)
    && SoundOptional(eng, plan.where_, form, rows)
    && SoundGroup(eng, plan.groupBy, form, k, rows)
    && SoundOptional(eng, plan.having, form, rows)
    && SoundOrderBy(eng, plan.orderBy, form, k, rows)
    && SoundJoins(eng, plan.joins, form, rows)
  }

  /** The rows of a CTE are read by everything else, so they must stay exactly as they are. */
  ghost predicate SoundCtes(eng: Engine, c: Clause<CommonTableExpression>, form: FalseForm, outer: Row)
    decreases c, 3
  {
    c.Given? ==> forall i :: 0 <= i < |c.items| ==> SoundPlan(eng, c.items[i].query, form, Exact, outer)
  }

  ghost predicate SoundOperand(eng: Engine, s: Option<SetOperationClause>, form: FalseForm, k: Fidelity, outer: Row)
    decreases s, 3
  {
    s.Some? ==> SoundPlan(eng, s.value.right, form, k, outer)
  }

  /** The plan's clauses are sound on the rows that the engine evaluates them on. */
  ghost predicate SoundPlan(eng: Engine, plan: QueryPlan, form: FalseForm, k: Fidelity, outer: Row)
    decreases plan, 2
  {
    var ctes := EvalCtes(eng, plan.ctes, outer);
    && SoundCtes(eng, plan.ctes, form, outer)
    && SoundOperand(eng, plan.setOperation, form, k, outer)
    && (AllOk(ctes) ==>
          SoundClauses(eng, plan, form, k, eng.candidates(plan.from, JoinSources(plan.joins), Unwrap(ctes), outer)))
  }

  // ---- operators keep refinement ------------------------------------------

  lemma MatchRefines(
    eng: Engine, op: ComparisonOperator, a: Outcome<Value>, l: Outcome<Value>, b: Outcome<Value>, r: Outcome<Value>)
    requires !op.Compare? && Refines(Exact, a, l) && Refines(Exact, b, r)
    ensures Refines(Exact, Comparison3(eng, op, a, b), Comparison3(eng, op, l, r))
  {
    hide Match3;
    MatchIsStrict(eng, a, b);
  }

  lemma {:induction false} InListRefines(
    eng: Engine, v: Outcome<Value>, v': Outcome<Value>, xs: seq<Outcome<Value>>, ys: seq<Outcome<Value>>)
    requires Refines(Numeric, v, v') && |xs| == |ys|
    requires forall i :: 0 <= i < |xs| ==> Refines(Numeric, xs[i], ys[i]) && PairKeeps(v, v', xs[i], ys[i])
    ensures Refines(Exact, InList(eng, v, xs), InList(eng, v', ys))
  {
    hide Compare3, PairKeeps;
    if xs != [] {
      CompareStands(eng, Eq, v, v', xs[0], ys[0]);
      InListRefines(eng, v, v', xs[1..], ys[1..]);
    }
  }

  // ---- expressions --------------------------------------------------------

  lemma BinaryNodeRefines(
    eng: Engine, k: Fidelity, left: Expression, op: BinaryOperator, right: Expression, form: FalseForm,
    rows: set<Row>, row: Row)
    requires SideOf(eng, left, form, rows, row).Sound(eng) && SideOf(eng, right, form, rows, row).Sound(eng)
    requires NodeKeeps(eng, k, SideOf(eng, left, form, rows, row), op, SideOf(eng, right, form, rows, row))
    ensures
      var l, r := FoldExpression(left, form), FoldExpression(right, form);
      Refines(k, Binary(eng, op, Eval(eng, left, rows, row), Eval(eng, right, rows, row)),
              Eval(eng, BinaryNode(l, op, r), rows, row))
  {
    hide Round, NumberToF64, Binary, SimplifyBinary, NodeKeeps, LiteralOutcome, Refines, FoldExpression;
    var x, y := SideOf(eng, left, form, rows, row), SideOf(eng, right, form, rows, row);
    if SimplifyBinary(x.folded, op, y.folded).Some? {
      SimplifiedBinaryRefines(eng, k, x, op, y, Eval(eng, BinaryNode(x.folded, op, y.folded), rows, row));
    } else {
      KeptBinaryRefines(eng, k, x, op, y);
    }
  }

  lemma SideIsSound(eng: Engine, e: Expression, form: FalseForm, rows: set<Row>, row: Row)
    requires Refines(Numeric, Eval(eng, e, rows, row), Eval(eng, FoldExpression(e, form), rows, row))
    ensures SideOf(eng, e, form, rows, row).Sound(eng)
  {
    hide LiteralOutcome, FoldExpression, Refines;
  }

  lemma {:induction false} FoldedExpressionRefines(
    eng: Engine, e: Expression, form: FalseForm, k: Fidelity, rows: set<Row>, row: Row)
    requires Monotone(eng) && SoundExpression(eng, e, form, k, rows, row)
    ensures Refines(k, Eval(eng, e, rows, row), Eval(eng, FoldExpression(e, form), rows, row))
    decreases e, 0
  {
    hide Round, NumberToF64, Binary, BinaryNode, NodeKeeps, Monotone, StandsFor, LiteralOutcome, Side.Sound, Refines,
      SideOf;
    match e
    case BinaryOp(left, op, right) =>
      FoldedExpressionRefines(eng, left, form, Numeric, rows, row);
      FoldedExpressionRefines(eng, right, form, Numeric, rows, row);
      SideIsSound(eng, left, form, rows, row);
      SideIsSound(eng, right, form, rows, row);
      BinaryNodeRefines(eng, k, left, op, right, form, rows, row);
    case FunctionCall(name, args, distinct) =>
      FoldedTablesRefine(eng, args, form, Exact, rows);
      CallRefines(eng, name, distinct, EvalTables(eng, args, rows),
                  EvalTables(eng, FoldExpressions(args, form), rows), row);
      ExactIsEnough(k, Eval(eng, e, rows, row), Eval(eng, FoldExpression(e, form), rows, row));
    case SubQuery(query) =>
      FoldedPlanRefines(eng, query, form, k, row);
      ScalarRefines(eng, k, EvalPlan(eng, query, row), EvalPlan(eng, FoldPlan(query, form), row));
      SubqueryRefines(eng, k, query, FoldPlan(query, form), rows, row);
    case _ => ExactIsEnough(k, Eval(eng, e, rows, row), Eval(eng, e, rows, row));
  }

  lemma SubqueryRefines(eng: Engine, k: Fidelity, a: QueryPlan, b: QueryPlan, rows: set<Row>, row: Row)
    requires EvalPlan(eng, a, row).Ok? ==>
      && EvalPlan(eng, b, row).Ok?
      && Refines(k, eng.scalar(EvalPlan(eng, a, row).value), eng.scalar(EvalPlan(eng, b, row).value))
    ensures Refines(k, Eval(eng, SubQuery(a), rows, row), Eval(eng, SubQuery(b), rows, row))
  {
    hide EvalPlan;
  }

  lemma CallRefines(eng: Engine, name: string, distinct: bool, a: seq<Table>, b: seq<Table>, row: Row)
    requires Monotone(eng) && TablesRefine(Exact, a, b)
    ensures Refines(Exact, eng.call(name, distinct, a, row), eng.call(name, distinct, b, row))
  {
    hide TablesRefine, MeaningRefines, SameRelation, Refines, RelationRefines;
  }

  lemma ScalarRefines(eng: Engine, k: Fidelity, a: Outcome<Relation_>, b: Outcome<Relation_>)
    requires Monotone(eng) && RelationRefines(k, a, b)
    ensures a.Ok? ==> b.Ok? && Refines(k, eng.scalar(a.value), eng.scalar(b.value))
  {
    hide TablesRefine, MeaningRefines, SameRelation, Refines;
  }

  lemma {:induction false} FoldedTableRefines(
    eng: Engine, e: Expression, form: FalseForm, k: Fidelity, rows: set<Row>)
    requires Monotone(eng) && SoundTable(eng, e, form, k, rows)
    ensures TableRefines(k, EvalTable(eng, e, rows), EvalTable(eng, FoldExpression(e, form), rows))
    decreases e, 1
  {
    hide Monotone, Refines, SoundExpression;
    forall row | row in rows
      ensures Refines(k, Eval(eng, e, rows, row), Eval(eng, FoldExpression(e, form), rows, row))
    {
      FoldedExpressionRefines(eng, e, form, k, rows, row);
    }
  }

  lemma {:induction false} FoldedTablesRefine(
    eng: Engine, es: seq<Expression>, form: FalseForm, k: Fidelity, rows: set<Row>)
    requires Monotone(eng) && SoundTables(eng, es, form, k, rows)
    ensures TablesRefine(k, EvalTables(eng, es, rows), EvalTables(eng, FoldExpressions(es, form), rows))
    decreases es, 2
  {
    hide Monotone, TableRefines, SoundTable;
    forall i | 0 <= i < |es|
      ensures TableRefines(k, EvalTable(eng, es[i], rows), EvalTable(eng, FoldExpressions(es, form)[i], rows))
    {
      FoldedTableRefines(eng, es[i], form, k, rows);
    }
  }

  // ---- predicates ---------------------------------------------------------

  ghost function OperandOf(eng: Engine, p: Predicate, form: FalseForm, rows: set<Row>, row: Row): Operand {
    Operand(ModeOf(eng, p, form), FoldPredicate(p, form),
            EvalPredicate(eng, p, rows, row), EvalPredicate(eng, FoldPredicate(p, form), rows, row))
  }

  /** One unfolding of the folder, the mode and the evaluator at a connective. */
  lemma ConnectiveUnfolds(eng: Engine, l: Predicate, r: Predicate, form: FalseForm, rows: set<Row>, row: Row)
    ensures FoldPredicate(And(l, r), form) == AndNode(FoldPredicate(l, form), FoldPredicate(r, form), form)
    ensures FoldPredicate(Or(l, r), form) == OrNode(FoldPredicate(l, form), FoldPredicate(r, form), form)
    ensures FoldPredicate(Not(l), form) == NotNode(FoldPredicate(l, form), form)
    ensures ModeOf(eng, Not(l), form) == ModeOfNot(eng, ModeOf(eng, l, form), FoldPredicate(l, form), form)
    ensures ModeOf(eng, And(l, r), form)
         == ModeOfAnd(eng, ModeOf(eng, l, form), FoldPredicate(l, form), ModeOf(eng, r, form), FoldPredicate(r, form), form)
    ensures ModeOf(eng, Or(l, r), form)
         == ModeOfOr(eng, ModeOf(eng, l, form), FoldPredicate(l, form), ModeOf(eng, r, form), FoldPredicate(r, form), form)
    ensures EvalPredicate(eng, And(l, r), rows, row)
         == And3(EvalPredicate(eng, l, rows, row), EvalPredicate(eng, r, rows, row))
    ensures EvalPredicate(eng, Or(l, r), rows, row)
         == Or3(EvalPredicate(eng, l, rows, row), EvalPredicate(eng, r, rows, row))
    ensures EvalPredicate(eng, Not(l), rows, row) == Not3(EvalPredicate(eng, l, rows, row))
  {
    hide Round, AndNode, OrNode, NotNode, ModeOfAnd, ModeOfOr, ModeOfNot, And3, Or3, Not3, Eval, FoldExpression;
  }

  lemma ConnectiveAgrees(eng: Engine, l: Predicate, r: Predicate, form: FalseForm, rows: set<Row>, row: Row)
    requires OperandOf(eng, l, form, rows, row).Sound(eng, form) && OperandOf(eng, r, form, rows, row).Sound(eng, form)
    ensures And3(EvalPredicate(eng, l, rows, row), EvalPredicate(eng, r, rows, row)).Ok? ==>
            OperandOf(eng, And(l, r), form, rows, row).Sound(eng, form)
    ensures Or3(EvalPredicate(eng, l, rows, row), EvalPredicate(eng, r, rows, row)).Ok? ==>
            OperandOf(eng, Or(l, r), form, rows, row).Sound(eng, form)
  {
    hide Round, Spells, Agrees, AndNode, OrNode, FoldAnd, FoldOr, ModeOfAnd, ModeOfOr, And3, Or3,
      FoldPredicate, EvalPredicate, ModeOf;
    ConnectiveUnfolds(eng, l, r, form, rows, row);
    var x, y := OperandOf(eng, l, form, rows, row), OperandOf(eng, r, form, rows, row);
    AndOutcome(eng, x.folded, y.folded, form, rows, row);
    OrOutcome(eng, x.folded, y.folded, form, rows, row);
    ConstantsAreSpelled(eng, AndNode(x.folded, y.folded, form), rows, row);
    ConstantsAreSpelled(eng, OrNode(x.folded, y.folded, form), rows, row);
    if And3(x.before, y.before).Ok? {
      AndAgrees(eng, x, y, form, EvalPredicate(eng, AndNode(x.folded, y.folded, form), rows, row));
    }
    if Or3(x.before, y.before).Ok? {
      OrAgrees(eng, x, y, form, EvalPredicate(eng, OrNode(x.folded, y.folded, form), rows, row));
    }
  }

  lemma AndOutcome(eng: Engine, l: Predicate, r: Predicate, form: FalseForm, rows: set<Row>, row: Row)
    ensures FoldAnd(l, r, form).None? ==>
              EvalPredicate(eng, AndNode(l, r, form), rows, row)
              == And3(EvalPredicate(eng, l, rows, row), EvalPredicate(eng, r, rows, row))
    ensures FoldAnd(l, r, form).Some? ==> AndNode(l, r, form) == FoldAnd(l, r, form).value
  {
    hide Round, FoldAnd, And3;
  }

  lemma OrOutcome(eng: Engine, l: Predicate, r: Predicate, form: FalseForm, rows: set<Row>, row: Row)
    ensures FoldOr(l, r, form).None? ==>
              EvalPredicate(eng, OrNode(l, r, form), rows, row)
              == Or3(EvalPredicate(eng, l, rows, row), EvalPredicate(eng, r, rows, row))
    ensures FoldOr(l, r, form).Some? ==> OrNode(l, r, form) == FoldOr(l, r, form).value
  {
    hide Round, FoldOr, Or3;
  }

  lemma NotOutcome(eng: Engine, f: Predicate, form: FalseForm, rows: set<Row>, row: Row)
    ensures SimplifyNot(f, form).None? ==>
              EvalPredicate(eng, NotNode(f, form), rows, row) == Not3(EvalPredicate(eng, f, rows, row))
    ensures f.Not? ==>
              EvalPredicate(eng, f, rows, row) == Not3(EvalPredicate(eng, NotNode(f, form), rows, row))
  {
    hide Round, FoldNotComparison, Not3;
  }

  lemma NegationAgrees(eng: Engine, c: Predicate, form: FalseForm, rows: set<Row>, row: Row)
    requires OperandOf(eng, c, form, rows, row).Sound(eng, form)
    requires Not3(EvalPredicate(eng, c, rows, row)).Ok?
    ensures OperandOf(eng, Not(c), form, rows, row).Sound(eng, form)
  {
    hide Round, Spells, Agrees, ModeOfNot, NotNode, SimplifyNot, Not3, FoldPredicate, EvalPredicate, ModeOf;
    ConnectiveUnfolds(eng, c, c, form, rows, row);
    var x := OperandOf(eng, c, form, rows, row);
    NotOutcome(eng, x.folded, form, rows, row);
    ConstantsAreSpelled(eng, NotNode(x.folded, form), rows, row);
    NotAgrees(eng, x, form, EvalPredicate(eng, NotNode(x.folded, form), rows, row));
  }

  lemma IsNullAgrees(eng: Engine, e: Expression, form: FalseForm, rows: set<Row>, row: Row)
    requires Eval(eng, e, rows, row).Ok?
    requires Refines(Numeric, Eval(eng, e, rows, row), Eval(eng, FoldExpression(e, form), rows, row))
    requires NullTestKeeps(eng, FoldExpression(e, form))
    ensures OperandOf(eng, IsNull(e), form, rows, row).Sound(eng, form)
  {
    hide Round, NumberToF64, Spells, IsSelfFalse, BoolPredicate;
    var f := FoldExpression(e, form);
    var o := EvalPredicate(eng, IsNullNode(f, form), rows, row);
    ConstantsAreSpelled(eng, IsNullNode(f, form), rows, row);
    if f.Literal? {
      BoolPredicateIsConstant(eng, f.value.Null?, form, o);
    } else {
      NotSelfFalse(eng, IsNull(f));
    }
  }

  lemma NotSelfFalse(eng: Engine, p: Predicate)
    requires !p.Comparison?
    ensures !IsSelfFalse(eng, p)
  {
  }

  predicate IsConnective(p: Predicate) {
    p.And? || p.Or? || p.Not? || p.IsNull?
  }

  lemma KeptAgrees(eng: Engine, p: Predicate, form: FalseForm, rows: set<Row>, row: Row)
    requires !IsConnective(p) && EvalPredicate(eng, p, rows, row).Ok?
    requires Refines(Exact, EvalPredicate(eng, p, rows, row), EvalPredicate(eng, FoldPredicate(p, form), rows, row))
    ensures OperandOf(eng, p, form, rows, row).Sound(eng, form)
  {
    hide Round, Spells, IsSelfFalse, EvalPredicate, FoldPredicate;
    var f := FoldPredicate(p, form);
    ConstantsAreSpelled(eng, f, rows, row);
    if IsSelfFalse(eng, f) { SelfFalseIsTrue(eng, f, EvalPredicate(eng, f, rows, row)); }
  }

  /** What a comparison of two folded expressions says. */
  lemma PairRefines(
    eng: Engine, rel: Relation, left: Expression, right: Expression, form: FalseForm, rows: set<Row>, row: Row)
    requires Refines(Numeric, Eval(eng, left, rows, row), Eval(eng, FoldExpression(left, form), rows, row))
    requires Refines(Numeric, Eval(eng, right, rows, row), Eval(eng, FoldExpression(right, form), rows, row))
    requires ComparedAlike(eng, left, right, form, rows, row)
    ensures Refines(Exact, Compare3(eng, rel, Eval(eng, left, rows, row), Eval(eng, right, rows, row)),
                    Compare3(eng, rel, Eval(eng, FoldExpression(left, form), rows, row),
                             Eval(eng, FoldExpression(right, form), rows, row)))
  {
    hide Compare3, PairKeeps, Refines, FoldExpression, Eval;
    CompareStands(eng, rel, Eval(eng, left, rows, row), Eval(eng, FoldExpression(left, form), rows, row),
                  Eval(eng, right, rows, row), Eval(eng, FoldExpression(right, form), rows, row));
  }

  lemma {:induction false} FoldedAtomRefines(eng: Engine, p: Predicate, form: FalseForm, rows: set<Row>, row: Row)
    requires !IsConnective(p) && Monotone(eng) && SoundWithin(eng, p, form, rows, row)
    ensures Refines(Exact, EvalPredicate(eng, p, rows, row), EvalPredicate(eng, FoldPredicate(p, form), rows, row))
    decreases p, 0
  {
    hide Round, Monotone, Eval, SoundExpression, FoldExpression, Match3, Compare3, And3, ComparedAlike, Refines;
    match p
    case Comparison(left, Compare(rel), right) =>
      FoldedExpressionRefines(eng, left, form, Numeric, rows, row);
      FoldedExpressionRefines(eng, right, form, Numeric, rows, row);
      PairRefines(eng, rel, left, right, form, rows, row);
    case Comparison(left, op, right) =>
      FoldedExpressionRefines(eng, left, form, Exact, rows, row);
      FoldedExpressionRefines(eng, right, form, Exact, rows, row);
      MatchRefines(eng, op, Eval(eng, left, rows, row), Eval(eng, FoldExpression(left, form), rows, row),
                   Eval(eng, right, rows, row), Eval(eng, FoldExpression(right, form), rows, row));
    case Between(expr, low, high) =>
      FoldedExpressionRefines(eng, expr, form, Numeric, rows, row);
      FoldedExpressionRefines(eng, low, form, Numeric, rows, row);
      FoldedExpressionRefines(eng, high, form, Numeric, rows, row);
      PairRefines(eng, Gte, expr, low, form, rows, row);
      PairRefines(eng, Lte, expr, high, form, rows, row);
      BothRefine(Compare3(eng, Gte, Eval(eng, expr, rows, row), Eval(eng, low, rows, row)),
                 Compare3(eng, Gte, Eval(eng, FoldExpression(expr, form), rows, row),
                          Eval(eng, FoldExpression(low, form), rows, row)),
                 Compare3(eng, Lte, Eval(eng, expr, rows, row), Eval(eng, high, rows, row)),
                 Compare3(eng, Lte, Eval(eng, FoldExpression(expr, form), rows, row),
                          Eval(eng, FoldExpression(high, form), rows, row)));
    case In(expr, Values(values)) =>
      FoldedExpressionRefines(eng, expr, form, Numeric, rows, row);
      FoldedValuesRefine(eng, expr, values, form, rows, row);
      InListRefines(eng, Eval(eng, expr, rows, row), Eval(eng, FoldExpression(expr, form), rows, row),
                    EvalAll(eng, values, rows, row), EvalAll(eng, FoldExpressions(values, form), rows, row));
    case In(expr, Query(query)) =>
      FoldedExpressionRefines(eng, expr, form, Exact, rows, row);
      MembershipRefines(eng, expr, FoldExpression(expr, form), query, rows, row);
    case Like(expr, pattern) =>
      FoldedExpressionRefines(eng, expr, form, Exact, rows, row);
      LikeRefines(eng, Eval(eng, expr, rows, row), Eval(eng, FoldExpression(expr, form), rows, row), pattern);
    case Exists(_) | True | False =>
      ExactIsEnough(Exact, EvalPredicate(eng, p, rows, row), EvalPredicate(eng, p, rows, row));
  }

  lemma LikeRefines(eng: Engine, a: Outcome<Value>, l: Outcome<Value>, pattern: string)
    requires Refines(Exact, a, l)
    ensures Refines(Exact, Match3(eng, ByLike, a, Ok(VStr(pattern))), Match3(eng, ByLike, l, Ok(VStr(pattern))))
  {
  }

  lemma MembershipRefines(eng: Engine, e: Expression, f: Expression, query: QueryPlan, rows: set<Row>, row: Row)
    requires Refines(Exact, Eval(eng, e, rows, row), Eval(eng, f, rows, row))
    ensures Refines(Exact, EvalPredicate(eng, In(e, Query(query)), rows, row),
                    EvalPredicate(eng, In(f, Query(query)), rows, row))
  {
    hide Eval;
  }

  lemma BothRefine(a: Outcome<Value>, a': Outcome<Value>, b: Outcome<Value>, b': Outcome<Value>)
    requires Refines(Exact, a, a') && Refines(Exact, b, b')
    ensures Refines(Exact, And3(a, b), And3(a', b'))
  {
  }

  lemma {:induction false} FoldedValuesRefine(
    eng: Engine, e: Expression, es: seq<Expression>, form: FalseForm, rows: set<Row>, row: Row)
    requires Monotone(eng) && forall i :: 0 <= i < |es| ==> SoundExpression(eng, es[i], form, Numeric, rows, row)
    requires forall i :: 0 <= i < |es| ==> ComparedAlike(eng, e, es[i], form, rows, row)
    ensures
      var v, w := Eval(eng, e, rows, row), Eval(eng, FoldExpression(e, form), rows, row);
      var xs, ys := EvalAll(eng, es, rows, row), EvalAll(eng, FoldExpressions(es, form), rows, row);
      |xs| == |ys| && forall i :: 0 <= i < |xs| ==> Refines(Numeric, xs[i], ys[i]) && PairKeeps(v, w, xs[i], ys[i])
    decreases es, 1
  {
    hide Monotone, Refines, SoundExpression, Eval, FoldExpression, PairKeeps;
    var v, w := Eval(eng, e, rows, row), Eval(eng, FoldExpression(e, form), rows, row);
    forall i | 0 <= i < |es|
      ensures Refines(Numeric, Eval(eng, es[i], rows, row), Eval(eng, FoldExpressions(es, form)[i], rows, row))
      ensures PairKeeps(v, w, Eval(eng, es[i], rows, row), Eval(eng, FoldExpressions(es, form)[i], rows, row))
    {
      assert ComparedAlike(eng, e, es[i], form, rows, row);
      FoldedExpressionRefines(eng, es[i], form, Numeric, rows, row);
    }
  }

  /** The mode of a predicate tells what folding did to its truth value. */
  lemma {:induction false} FoldedPredicateAgrees(
    eng: Engine, p: Predicate, form: FalseForm, rows: set<Row>, row: Row)
    requires Monotone(eng) && SoundWithin(eng, p, form, rows, row) && EvalPredicate(eng, p, rows, row).Ok?
    ensures OperandOf(eng, p, form, rows, row).Sound(eng, form)
    decreases p, 1
  {
    hide Round, Monotone, Operand.Sound, OperandOf, FoldPredicate, SoundExpression, ComparedAlike, NullTestKeeps;
    match p
    case And(l, r) =>
      FoldedPredicateAgrees(eng, l, form, rows, row);
      FoldedPredicateAgrees(eng, r, form, rows, row);
      ConnectiveAgrees(eng, l, r, form, rows, row);
    case Or(l, r) =>
      FoldedPredicateAgrees(eng, l, form, rows, row);
      FoldedPredicateAgrees(eng, r, form, rows, row);
      ConnectiveAgrees(eng, l, r, form, rows, row);
    case Not(c) =>
      FoldedPredicateAgrees(eng, c, form, rows, row);
      NegationAgrees(eng, c, form, rows, row);
    case IsNull(e) =>
      FoldedExpressionRefines(eng, e, form, Numeric, rows, row);
      IsNullAgrees(eng, e, form, rows, row);
    case _ =>
      FoldedAtomRefines(eng, p, form, rows, row);
      KeptAgrees(eng, p, form, rows, row);
  }

  // ---- plans --------------------------------------------------------------

  lemma {:induction false} FoldedPredicateTableRefines(eng: Engine, p: Predicate, form: FalseForm, rows: set<Row>)
    requires Monotone(eng) && SoundCondition(eng, p, form, rows)
    ensures TableRefines(Exact, EvalPredicateTable(eng, p, rows), EvalPredicateTable(eng, FoldPredicate(p, form), rows))
    decreases p, 2
  {
    hide Round, Monotone, ModeOf;
    forall row | row in rows
      ensures Refines(Exact, EvalPredicate(eng, p, rows, row), EvalPredicate(eng, FoldPredicate(p, form), rows, row))
    {
      assert SoundPredicate(eng, p, form, rows, row);
      if EvalPredicate(eng, p, rows, row).Ok? {
        FoldedPredicateAgrees(eng, p, form, rows, row);
        EncodedTrueIsTrue(eng, OperandOf(eng, p, form, rows, row), form);
      }
    }
  }

  lemma EncodedTrueIsTrue(eng: Engine, x: Operand, form: FalseForm)
    requires x.Sound(eng, form) && (x.mode.EncodedTrue? || x.mode.Faithful?)
    ensures x.after == x.before
  {
    hide Round, Spells, IsSelfFalse;
    if x.mode.EncodedTrue? { SelfFalseIsTrue(eng, x.folded, x.after); }
  }

  lemma {:induction false} FoldedOptionalRefines(eng: Engine, p: Option<Predicate>, form: FalseForm, rows: set<Row>)
    requires Monotone(eng) && SoundOptional(eng, p, form, rows)
    ensures TablesRefine(Exact, EvalOptional(eng, p, rows), EvalOptional(eng, FoldOptional(p, form), rows))
    decreases p, 3
  {
    hide Monotone, TableRefines;
    if p.Some? { FoldedPredicateTableRefines(eng, p.value, form, rows); }
  }

  lemma {:induction false} FoldedProjectionsRefine(
    eng: Engine, ps: seq<Projection>, form: FalseForm, k: Fidelity, rows: set<Row>)
    requires Monotone(eng) && SoundProjections(eng, ps, form, k, rows)
    ensures TablesRefine(k, EvalProjections(eng, ps, rows), EvalProjections(eng, FoldProjections(ps, form), rows))
    decreases ps, 3
  {
    hide Monotone;
    var qs := FoldProjections(ps, form);
    forall i | 0 <= i < |ps|
      ensures TableRefines(k, EvalProjection(eng, ps[i], rows), EvalProjection(eng, qs[i], rows))
    {
      assert ps decreases to ps[i];
      assert SoundProjection(eng, ps[i], form, k, rows) && qs[i] == FoldProjection(ps[i], form);
      if ps[i].Expr? { FoldedTableRefines(eng, ps[i].expression, form, k, rows); }
    }
  }

  lemma {:induction false} FoldedGroupRefines(
    eng: Engine, c: Clause<Expression>, form: FalseForm, k: Fidelity, rows: set<Row>)
    requires Monotone(eng) && SoundGroup(eng, c, form, k, rows)
    ensures TablesRefine(k, EvalGroup(eng, c, rows), EvalGroup(eng, FoldGroup(c, form), rows))
    decreases c, 3
  {
    hide Monotone, TableRefines;
    if c.Given? {
      var es, fs := c.items, FoldGroup(c, form).items;
      forall i | 0 <= i < |es|
        ensures TableRefines(k, EvalTable(eng, es[i], rows), EvalTable(eng, fs[i], rows))
      {
        FoldedTableRefines(eng, es[i], form, k, rows);
      }
    }
  }

  lemma {:induction false} FoldedOrderByRefines(
    eng: Engine, c: Clause<OrderByTerm>, form: FalseForm, k: Fidelity, rows: set<Row>)
    requires Monotone(eng) && SoundOrderBy(eng, c, form, k, rows)
    ensures TablesRefine(k, EvalOrderBy(eng, c, rows), EvalOrderBy(eng, FoldOrderBy(c, form), rows))
    decreases c, 3
  {
    hide Monotone, TableRefines;
    if c.Given? {
      var ts, us := c.items, FoldOrderBy(c, form).items;
      forall i | 0 <= i < |ts|
        ensures TableRefines(k, EvalTable(eng, ts[i].expr, rows), EvalTable(eng, us[i].expr, rows))
      {
        assert c decreases to ts[i];
        FoldedTableRefines(eng, ts[i].expr, form, k, rows);
      }
    }
  }

  lemma {:induction false} FoldedJoinsRefine(eng: Engine, c: Clause<JoinClause>, form: FalseForm, rows: set<Row>)
    requires Monotone(eng) && SoundJoins(eng, c, form, rows)
    ensures TablesRefine(Exact, EvalJoins(eng, c, rows), EvalJoins(eng, FoldJoins(c, form), rows))
    decreases c, 3
  {
    hide Monotone, TableRefines;
    if c.Given? {
      var js, ks := c.items, FoldJoins(c, form).items;
      forall i | 0 <= i < |js|
        ensures TableRefines(Exact, EvalPredicateTable(eng, js[i].on, rows), EvalPredicateTable(eng, ks[i].on, rows))
      {
        assert c decreases to js[i];
        FoldedPredicateTableRefines(eng, js[i].on, form, rows);
      }
    }
  }

  lemma {:induction false} FoldedClausesRefine(
    eng: Engine, plan: QueryPlan, form: FalseForm, k: Fidelity, rows: set<Row>)
    requires Monotone(eng) && SoundClauses(eng, plan, form, k, rows)
    ensures MeaningRefines(k, EvalClauses(eng, plan, rows), EvalClauses(eng, FoldPlan(plan, form), rows))
    decreases plan, 3
  {
    hide Monotone, TablesRefine, SoundProjections, SoundOptional, SoundGroup, SoundOrderBy, SoundJoins;
    FoldedProjectionsRefine(eng, plan.select, form, k, rows);
    FoldedOptionalRefines(eng, plan.where_, form, rows);
    FoldedGroupRefines(eng, plan.groupBy, form, k, rows);
    FoldedOptionalRefines(eng, plan.having, form, rows);
    FoldedOrderByRefines(eng, plan.orderBy, form, k, rows);
    FoldedJoinsRefine(eng, plan.joins, form, rows);
  }

  /** Bindings that evaluated keep their values. */
  lemma {:induction false} FoldedCtesRefine(
    eng: Engine, c: Clause<CommonTableExpression>, form: FalseForm, outer: Row)
    requires Monotone(eng) && SoundCtes(eng, c, form, outer) && AllOk(EvalCtes(eng, c, outer))
    ensures EvalCtes(eng, FoldCtes(c, form), outer) == EvalCtes(eng, c, outer)
    decreases c, 5
  {
    hide Monotone;
    if c.Given? {
      var cs, ds := c.items, FoldCtes(c, form).items;
      forall i | 0 <= i < |cs| ensures EvalCte(eng, ds[i], outer) == EvalCte(eng, cs[i], outer) {
        assert c decreases to cs[i];
        assert EvalCtes(eng, c, outer)[i] == EvalCte(eng, cs[i], outer);
        FoldedPlanRefines(eng, cs[i].query, form, Exact, outer);
        CteIsKept(eng, cs[i], ds[i], outer);
      }
      assert EvalCtes(eng, FoldCtes(c, form), outer) == EvalCtes(eng, c, outer);
    }
  }

  lemma CteIsKept(eng: Engine, c: CommonTableExpression, d: CommonTableExpression, outer: Row)
    requires d.name == c.name && d.recursive == c.recursive && EvalCte(eng, c, outer).Ok?
    requires RelationRefines(Exact, EvalPlan(eng, c.query, outer), EvalPlan(eng, d.query, outer))
    ensures EvalCte(eng, d, outer) == EvalCte(eng, c, outer)
  {
    hide EvalPlan, EvalCte, RelationRefines;
    CteUnfolds(eng, c, outer);
    CteUnfolds(eng, d, outer);
    ExactOutcomeIsEqual(EvalPlan(eng, c.query, outer), EvalPlan(eng, d.query, outer));
  }

  lemma ExactOutcomeIsEqual(a: Outcome<Relation_>, b: Outcome<Relation_>)
    requires RelationRefines(Exact, a, b) && a.Ok?
    ensures b == a
  {
    hide SameRelation;
    ExactlySameIsEqual(a.value, b.value);
  }

  lemma CteUnfolds(eng: Engine, c: CommonTableExpression, outer: Row)
    ensures EvalCte(eng, c, outer) ==
      match EvalPlan(eng, c.query, outer)
      case Err => Err
      case Ok(rel) => Ok(Binding(c.name, c.recursive, rel))
  {
    hide EvalPlan;
  }

  lemma ErasedProjectionsAreKept(ps: seq<Projection>, form: FalseForm)
    ensures EraseProjections(FoldProjections(ps, form)) == EraseProjections(ps)
  {
    hide FoldExpression;
    var qs := FoldProjections(ps, form);
    assert forall i :: 0 <= i < |ps| ==> qs[i] == FoldProjection(ps[i], form);
    assert EraseProjections(qs) == EraseProjections(ps);
  }

  lemma ErasedClausesAreKept(
    es: Clause<Expression>, ts: Clause<OrderByTerm>, js: Clause<JoinClause>, form: FalseForm)
    ensures EraseGroup(FoldGroup(es, form)) == EraseGroup(es)
    ensures EraseOrderBy(FoldOrderBy(ts, form)) == EraseOrderBy(ts)
    ensures EraseJoins(FoldJoins(js, form)) == EraseJoins(js)
    ensures JoinSources(FoldJoins(js, form)) == JoinSources(js)
  {
    hide FoldExpression, FoldPredicate;
    if es.Given? { assert EraseGroup(FoldGroup(es, form)).items == EraseGroup(es).items; }
    if ts.Given? { assert EraseOrderBy(FoldOrderBy(ts, form)).items == EraseOrderBy(ts).items; }
    if js.Given? {
      assert EraseJoins(FoldJoins(js, form)).items == EraseJoins(js).items;
      assert JoinSources(FoldJoins(js, form)) == JoinSources(js);
    }
  }

  lemma SkeletonIsKept(plan: QueryPlan, form: FalseForm)
    ensures Skeleton(FoldPlan(plan, form)) == Skeleton(plan)
    ensures JoinSources(FoldJoins(plan.joins, form)) == JoinSources(plan.joins)
  {
    hide EraseProjections, EraseGroup, EraseOrderBy, EraseJoins, JoinSources;
    ErasedProjectionsAreKept(plan.select, form);
    ErasedClausesAreKept(plan.groupBy, plan.orderBy, plan.joins, form);
  }

  lemma CombineRefines(
    eng: Engine, k: Fidelity, shape: QueryPlan, a: Meaning, b: Meaning, bindings: seq<Binding>,
    x: Option<Relation_>, y: Option<Relation_>, outer: Row)
    requires Monotone(eng) && MeaningRefines(k, a, b) && SameOperand(k, x, y)
    ensures RelationRefines(k, eng.combine(shape, a, bindings, x, outer), eng.combine(shape, b, bindings, y, outer))
  {
    hide TablesRefine, MeaningRefines, SameRelation, Refines, SameOperand, RelationRefines;
  }

  lemma {:induction false} FoldedOperandRefines(
    eng: Engine, s: Option<SetOperationClause>, form: FalseForm, k: Fidelity, outer: Row)
    requires Monotone(eng) && SoundOperand(eng, s, form, k, outer) && EvalOperand(eng, s, outer).Ok?
    ensures EvalOperand(eng, FoldOperand(s, form), outer).Ok?
    ensures SameOperand(k, EvalOperand(eng, s, outer).value, EvalOperand(eng, FoldOperand(s, form), outer).value)
    decreases s, 5
  {
    hide Monotone, SameRelation;
    if s.Some? { FoldedPlanRefines(eng, s.value.right, form, k, outer); }
  }

  /** A folded plan returns the same relation, for every engine and enclosing row for which it is sound. */
  lemma {:induction false} FoldedPlanRefines(eng: Engine, plan: QueryPlan, form: FalseForm, k: Fidelity, outer: Row)
    requires Monotone(eng) && SoundPlan(eng, plan, form, k, outer)
    ensures RelationRefines(k, EvalPlan(eng, plan, outer), EvalPlan(eng, FoldPlan(plan, form), outer))
    decreases plan, 5
  {
    hide Monotone, MeaningRefines, Skeleton, JoinSources, SoundCtes, SoundOperand, SoundClauses, EvalCtes, EvalOperand,
      EvalClauses, FoldCtes, FoldJoins, FoldOperand, RelationRefines, SameOperand;
    var folded := FoldPlan(plan, form);
    if EvalPlan(eng, plan, outer).Ok? {
      var ctes := EvalCtes(eng, plan.ctes, outer);
      FoldedCtesRefine(eng, plan.ctes, form, outer);
      FoldedOperandRefines(eng, plan.setOperation, form, k, outer);
      SkeletonIsKept(plan, form);
      var rows := eng.candidates(plan.from, JoinSources(plan.joins), Unwrap(ctes), outer);
      FoldedClausesRefine(eng, plan, form, k, rows);
      CombineRefines(eng, k, Skeleton(plan), EvalClauses(eng, plan, rows), EvalClauses(eng, folded, rows),
                     Unwrap(ctes), EvalOperand(eng, plan.setOperation, outer).value,
                     EvalOperand(eng, folded.setOperation, outer).value, outer);
    } else {
      ErrorsRefine(k, EvalPlan(eng, plan, outer), EvalPlan(eng, folded, outer));
    }
  }

  lemma ErrorsRefine(k: Fidelity, a: Outcome<Relation_>, b: Outcome<Relation_>)
    requires a.Err?
    ensures RelationRefines(k, a, b)
  {
  }
}
