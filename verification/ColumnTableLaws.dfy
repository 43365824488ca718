/**
 What wrong-table repair achieves: every reference it visits is settled afterwards, every
 qualified GROUP BY column resolves, and exactly the settled plans are left alone.
 */
module ColumnTableLaws {
  import opened Prelude
  import opened Ast
  import opened Schema
  import opened ColumnTable

  lemma {:induction false} KeptAreRetained(es: seq<Expression>, schema: Snapshot)
    ensures forall e :: e in KeepRetained(es, schema) ==> e in es && Retained(e, schema)
    ensures |KeepRetained(es, schema)| <= |es|
    ensures |KeepRetained(es, schema)| == |es| ==> KeepRetained(es, schema) == es
    ensures (forall i :: 0 <= i < |es| ==> Retained(es[i], schema)) ==> KeepRetained(es, schema) == es
  {
    hide Retained;
    if es != [] {
      var front := es[..|es| - 1];
      KeptAreRetained(front, schema);
      assert es == front + [es[|es| - 1]];
      assert forall i :: 0 <= i < |front| ==> front[i] == es[i];
    }
  }

  /** The entries that stay keep their order. */
  lemma {:induction false} RetainedOfConcat(a: seq<Expression>, b: seq<Expression>, schema: Snapshot)
    ensures KeepRetained(a + b, schema) == KeepRetained(a, schema) + KeepRetained(b, schema)
  {
    hide KeepRetained, Retained;
    if b == [] {
      assert a + b == a;
      KeptAreRetained(b, schema);
    } else {
      var n := |b| - 1;
      RetainedOfConcat(a, b[..n], schema);
      RetainedOfMore(a + b[..n], b[n], schema);
      RetainedOfMore(b[..n], b[n], schema);
      assert a + b[..n] + [b[n]] == a + b && b[..n] + [b[n]] == b;
    }
  }

  lemma RetainedOfMore(a: seq<Expression>, e: Expression, schema: Snapshot)
    ensures KeepRetained(a + [e], schema) == KeepRetained(a, schema) + if Retained(e, schema) then [e] else []
  {
    assert (a + [e])[..|a|] == a;
  }

  /**
   On settled references the second test of `retain` never decides: a reference stays
   exactly when it resolves.
   */
  lemma RetainIsResolution(e: Expression, schema: Snapshot)
    requires SettledExpr(e, schema)
    ensures Retained(e, schema) <==> GroupResolves(e, schema)
  {
  }

  lemma {:induction false} FixExprSettles(e: Expression, schema: Snapshot)
    requires MovesSettle(schema)
    ensures SettledExpr(FixedExpr(e, schema), schema)
    ensures FixedExpr(e, schema) == e <==> SettledExpr(e, schema)
    decreases e, 0
  {
    hide MovesSettle, Settled, Requalified;
    match e
    case ColumnRef(Some(table), column) => MovedSettles(schema, table, column);
    case FunctionCall(_, args, _) => FixExprsSettles(args, schema);
    case BinaryOp(left, _, right) =>
      FixExprSettles(left, schema);
      FixExprSettles(right, schema);
    case Case(operand, whenThens, elseResult) =>
      FixOptionalSettles(operand, schema);
      FixBranchesSettles(whenThens, schema);
      FixOptionalSettles(elseResult, schema);
    case SubQuery(query) => FixPlanSettles(query, schema);
    case WindowFunction(_, args, _, _) => FixExprsSettles(args, schema);
    case _ =>
  }

  lemma {:induction false} FixOptionalSettles(e: Option<Expression>, schema: Snapshot)
    requires MovesSettle(schema)
    ensures SettledOptional(FixedOptional(e, schema), schema)
    ensures FixedOptional(e, schema) == e <==> SettledOptional(e, schema)
    decreases e, 1
  {
    if e.Some? { FixExprSettles(e.value, schema); }
  }

  lemma {:induction false} FixExprsSettles(es: seq<Expression>, schema: Snapshot)
    requires MovesSettle(schema)
    ensures SettledExprs(FixedExprs(es, schema), schema)
    ensures FixedExprs(es, schema) == es <==> SettledExprs(es, schema)
    decreases es, 1
  {
    hide MovesSettle;
    var fs := FixedExprs(es, schema);
    forall i | 0 <= i < |es|
      ensures SettledExpr(fs[i], schema) && (fs[i] == es[i] <==> SettledExpr(es[i], schema))
    {
      FixExprSettles(es[i], schema);
    }
  }

  lemma {:induction false} FixBranchesSettles(ws: seq<WhenThen>, schema: Snapshot)
    requires MovesSettle(schema)
    ensures SettledBranches(FixedBranches(ws, schema), schema)
    ensures FixedBranches(ws, schema) == ws <==> SettledBranches(ws, schema)
    decreases ws, 2
  {
    hide MovesSettle;
    var fixed := FixedBranches(ws, schema);
    forall i | 0 <= i < |ws|
      ensures SettledBranch(fixed[i], schema) && (fixed[i] == ws[i] <==> SettledBranch(ws[i], schema))
    {
      assert ws decreases to ws[i];
      assert fixed[i] == FixedBranch(ws[i], schema);
      FixExprSettles(ws[i].when, schema);
      FixExprSettles(ws[i].then_, schema);
    }
  }

  lemma {:induction false} FixPredSettles(p: Predicate, schema: Snapshot)
    requires MovesSettle(schema)
    ensures SettledPred(FixedPred(p, schema), schema)
    ensures FixedPred(p, schema) == p <==> SettledPred(p, schema)
    decreases p, 0
  {
    hide MovesSettle;
    match p
    case Comparison(left, _, right) =>
      FixExprSettles(left, schema);
      FixExprSettles(right, schema);
    case And(l, r) => FixPredSettles(l, schema); FixPredSettles(r, schema);
    case Or(l, r) => FixPredSettles(l, schema); FixPredSettles(r, schema);
    case Not(child) => FixPredSettles(child, schema);
    case Between(expr, low, high) =>
      FixExprSettles(expr, schema);
      FixExprSettles(low, schema);
      FixExprSettles(high, schema);
    case In(expr, target) =>
      FixExprSettles(expr, schema);
      if target.Query? { FixPlanSettles(target.query, schema); }
    case Like(expr, _) => FixExprSettles(expr, schema);
    case IsNull(expr) => FixExprSettles(expr, schema);
    case Exists(query) => FixPlanSettles(query, schema);
    case True | False =>
  }

  lemma {:induction false} FixOptionalPredSettles(p: Option<Predicate>, schema: Snapshot)
    requires MovesSettle(schema)
    ensures SettledOptionalPred(FixedOptionalPred(p, schema), schema)
    ensures FixedOptionalPred(p, schema) == p <==> SettledOptionalPred(p, schema)
    decreases p, 1
  {
    if p.Some? { FixPredSettles(p.value, schema); }
  }

  lemma {:induction false} FixSelectSettles(ps: seq<Projection>, schema: Snapshot)
    requires MovesSettle(schema)
    ensures SettledSelect(FixedSelect(ps, schema), schema)
    ensures FixedSelect(ps, schema) == ps <==> SettledSelect(ps, schema)
    decreases ps, 2
  {
    hide MovesSettle, Settled, Requalified;
    var fixed := FixedSelect(ps, schema);
    forall i | 0 <= i < |ps|
      ensures SettledProjection(fixed[i], schema) && (fixed[i] == ps[i] <==> SettledProjection(ps[i], schema))
    {
      assert ps decreases to ps[i];
      assert fixed[i] == FixedProjection(ps[i], schema);
      match ps[i] {
        case Expr(e, _) => FixExprSettles(e, schema);
        case Column(Some(table), column, _) => MovedSettles(schema, table, column);
        case _ =>
      }
    }
    assert |fixed| == |ps|;
  }

  lemma {:induction false} FixGroupSettles(c: Clause<Expression>, schema: Snapshot)
    requires MovesSettle(schema)
    ensures SettledGroup(FixedGroup(c, schema), schema)
    ensures FixedGroup(c, schema) == c <==> SettledGroup(c, schema)
    decreases c, 2
  {
    hide MovesSettle, Retained, GroupResolves, FixedExprs, SettledExprs, SettledExpr, KeepRetained;
    if c.Given? {
      FixExprsSettles(c.items, schema);
      KeptSettles(c.items, FixedExprs(c.items, schema), schema);
    }
  }

  /** What `retain` does to fixed entries. */
  lemma KeptSettles(es: seq<Expression>, fixed: seq<Expression>, schema: Snapshot)
    requires SettledExprs(fixed, schema) && (fixed == es <==> SettledExprs(es, schema)) && |fixed| == |es|
    ensures SettledExprs(KeepRetained(fixed, schema), schema)
    ensures forall i :: 0 <= i < |KeepRetained(fixed, schema)| ==> GroupResolves(KeepRetained(fixed, schema)[i], schema)
    ensures KeepRetained(fixed, schema) == es <==>
      SettledExprs(es, schema) && forall i :: 0 <= i < |es| ==> GroupResolves(es[i], schema)
  {
    hide MovesSettle, Retained, GroupResolves, SettledExpr, KeepRetained;
    var kept := KeepRetained(fixed, schema);
    KeptAreRetained(fixed, schema);
    forall i | 0 <= i < |fixed|
      ensures Retained(fixed[i], schema) <==> GroupResolves(fixed[i], schema)
    {
      RetainIsResolution(fixed[i], schema);
    }
    forall i | 0 <= i < |kept|
      ensures SettledExpr(kept[i], schema) && GroupResolves(kept[i], schema)
    {
      assert kept[i] in kept;
      var j :| 0 <= j < |fixed| && fixed[j] == kept[i];
    }
  }

  lemma {:induction false} FixTermSettles(t: OrderByTerm, schema: Snapshot)
    requires MovesSettle(schema)
    ensures SettledTerm(FixedTerm(t, schema), schema)
    ensures FixedTerm(t, schema) == t <==> SettledTerm(t, schema)
    decreases t, 1
  {
    hide MovesSettle;
    FixExprSettles(t.expr, schema);
  }

  lemma {:induction false} FixOrderBySettles(c: Clause<OrderByTerm>, schema: Snapshot)
    requires MovesSettle(schema)
    ensures SettledOrderBy(FixedOrderBy(c, schema), schema)
    ensures FixedOrderBy(c, schema) == c <==> SettledOrderBy(c, schema)
    decreases c, 2
  {
    hide MovesSettle, FixedTerm, SettledTerm;
    if c.Given? {
      var ts, us := c.items, FixedOrderBy(c, schema).items;
      forall i | 0 <= i < |ts|
        ensures SettledTerm(us[i], schema) && (us[i] == ts[i] <==> SettledTerm(ts[i], schema))
      {
        assert c decreases to ts[i];
        FixTermSettles(ts[i], schema);
      }
      assert FixedOrderBy(c, schema) == c <==> us == ts;
    }
  }

  lemma {:induction false} FixJoinSettles(j: JoinClause, schema: Snapshot)
    requires MovesSettle(schema)
    ensures SettledJoin(FixedJoin(j, schema), schema)
    ensures FixedJoin(j, schema) == j <==> SettledJoin(j, schema)
    decreases j, 1
  {
    hide MovesSettle;
    FixPredSettles(j.on, schema);
  }

  lemma {:induction false} FixJoinsSettles(c: Clause<JoinClause>, schema: Snapshot)
    requires MovesSettle(schema)
    ensures SettledJoins(FixedJoins(c, schema), schema)
    ensures FixedJoins(c, schema) == c <==> SettledJoins(c, schema)
    decreases c, 2
  {
    hide MovesSettle, FixedJoin, SettledJoin;
    if c.Given? {
      var js, ks := c.items, FixedJoins(c, schema).items;
      forall i | 0 <= i < |js|
        ensures SettledJoin(ks[i], schema) && (ks[i] == js[i] <==> SettledJoin(js[i], schema))
      {
        assert c decreases to js[i];
        FixJoinSettles(js[i], schema);
      }
      assert FixedJoins(c, schema) == c <==> ks == js;
    }
  }

  lemma {:induction false} FixCteSettles(c: CommonTableExpression, schema: Snapshot)
    requires MovesSettle(schema)
    ensures SettledCte(FixedCte(c, schema), schema)
    ensures FixedCte(c, schema) == c <==> SettledCte(c, schema)
    decreases c, 1
  {
    hide MovesSettle;
    FixPlanSettles(c.query, schema);
  }

  lemma {:induction false} FixCtesSettles(c: Clause<CommonTableExpression>, schema: Snapshot)
    requires MovesSettle(schema)
    ensures SettledCtes(FixedCtes(c, schema), schema)
    ensures FixedCtes(c, schema) == c <==> SettledCtes(c, schema)
    decreases c, 2
  {
    hide MovesSettle, FixedCte, SettledCte;
    if c.Given? {
      var cs, ds := c.items, FixedCtes(c, schema).items;
      forall i | 0 <= i < |cs|
        ensures SettledCte(ds[i], schema) && (ds[i] == cs[i] <==> SettledCte(cs[i], schema))
      {
        assert c decreases to cs[i];
        FixCteSettles(cs[i], schema);
      }
      assert FixedCtes(c, schema) == c <==> ds == cs;
    }
  }

  lemma {:induction false} FixOperandSettles(s: Option<SetOperationClause>, schema: Snapshot)
    requires MovesSettle(schema)
    ensures SettledOperand(FixedOperand(s, schema), schema)
    ensures FixedOperand(s, schema) == s <==> SettledOperand(s, schema)
    decreases s, 1
  {
    if s.Some? { FixPlanSettles(s.value.right, schema); }
  }

  /** Repair settles every plan, and leaves alone exactly the settled ones. */
  lemma {:induction false} FixPlanSettles(plan: QueryPlan, schema: Snapshot)
    requires MovesSettle(schema)
    ensures SettledPlan(FixedPlan(plan, schema), schema)
    ensures FixedPlan(plan, schema) == plan <==> SettledPlan(plan, schema)
    decreases plan, 0
  {
    hide MovesSettle;
    FixSelectSettles(plan.select, schema);
    FixOptionalPredSettles(plan.where_, schema);
    FixOptionalPredSettles(plan.having, schema);
    FixGroupSettles(plan.groupBy, schema);
    FixOrderBySettles(plan.orderBy, schema);
    FixJoinsSettles(plan.joins, schema);
    FixCtesSettles(plan.ctes, schema);
    FixOperandSettles(plan.setOperation, schema);
  }

  lemma RepairIsIdempotent(plan: QueryPlan, schema: Snapshot)
    requires MovesSettle(schema)
    ensures FixedPlan(FixedPlan(plan, schema), schema) == FixedPlan(plan, schema)
  {
    FixPlanSettles(plan, schema);
    FixPlanSettles(FixedPlan(plan, schema), schema);
  }

  /** A plan that selects one qualified column. */
  function SelectOf(table: string, column: string): QueryPlan {
    QueryPlan([Column(Some(table), column, None)], false, Absent, FromClause.Table(table, None), None, Absent, None,
              Absent, None, None, Absent, Absent, None)
  }

  ghost predicate RepairSettles(schema: Snapshot) {
    forall plan :: SettledPlan(FixedPlan(plan, schema), schema)
  }

  /** Repair settles every plan over a schema if and only if it moves every reference to a place where it stays. */
  lemma RepairSettlesIff(schema: Snapshot)
    ensures RepairSettles(schema) <==> MovesSettle(schema)
  {
    hide SettledPlan, FixedPlan, Settled, Requalified;
    if MovesSettle(schema) {
      forall plan ensures SettledPlan(FixedPlan(plan, schema), schema) { FixPlanSettles(plan, schema); }
    }
    if RepairSettles(schema) {
      forall table, column
        ensures Settled(schema, Requalified(table, column, schema), column)
      {
        assert SettledPlan(FixedPlan(SelectOf(table, column), schema), schema);
        SelectSettles(schema, table, column);
      }
      assert MovesSettle(schema);
    }
  }

  lemma SelectSettles(schema: Snapshot, table: string, column: string)
    requires SettledPlan(FixedPlan(SelectOf(table, column), schema), schema)
    ensures Settled(schema, Requalified(table, column, schema), column)
  {
    hide Settled, Requalified;
    var fixed := FixedPlan(SelectOf(table, column), schema).select;
    assert fixed[0] == FixedProjection(Column(Some(table), column, None), schema);
    assert SettledProjection(fixed[0], schema);
  }
}
