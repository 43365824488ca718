/**
 Wrong-table repair as the source runs it: trees rebuilt in place, a changed flag on the
 side. Borrowed subtrees become values that are moved out, fixed, and moved back.
 */
module ColumnTableFix {
  import opened Prelude
  import opened Ast
  import opened Place
  import opened Schema
  import opened ColumnTable
  import opened ColumnTableLaws

  /**
   The flag is raised exactly when not all was settled, so whenever anything changed; where no
   table hides another, only then (`FixPlanSettles`).
   */
  predicate Flagged<T(==)>(before: T, settled: bool, after: T, changed: bool) {
    (changed <==> !settled) && (after != before ==> changed)
  }

  method FixQualifier(table: string, column: string, schema: Snapshot) returns (moved: string, changed: bool)
    ensures moved == Requalified(table, column, schema) && Flagged(table, Settled(schema, table, column), moved, changed)
  {
    moved, changed := table, false;
    if !Resolves(schema, table, column) {
      var found := FindColumnViaFk(table, column, schema);
      if found.Some? {
        moved, changed := found.value, true;
      }
    }
  }

  method FixExpr(e: Expression, schema: Snapshot) returns (fixed: Expression, changed: bool)
    ensures fixed == FixedExpr(e, schema) && Flagged(e, SettledExpr(e, schema), fixed, changed)
    decreases e, 0
  {
    hide Requalified, Settled;
    match e
    case ColumnRef(Some(table), column) =>
      var moved, c := FixQualifier(table, column, schema);
      return ColumnRef(Some(moved), column), c;
    case FunctionCall(name, args, distinct) =>
      var fs, c := FixExprs(args, schema);
      return FunctionCall(name, fs, distinct), c;
    case BinaryOp(left, op, right) =>
      var l, c := FixExpr(left, schema);
      var r, d := FixExpr(right, schema);
      return BinaryOp(l, op, r), c || d;
    case Case(operand, whenThens, elseResult) =>
      var o, c := FixOptional(operand, schema);
      var ws, d := FixBranches(whenThens, schema);
      var els, f := FixOptional(elseResult, schema);
      return Case(o, ws, els), c || d || f;
    case SubQuery(query) =>
      var cell := new PlanCell(query);
      var c := FixPlan(cell, schema);
      return SubQuery(cell.plan), c;
    case WindowFunction(name, args, distinct, over) =>
      var fs, c := FixExprs(args, schema);
      return WindowFunction(name, fs, distinct, over), c;
    case ColumnRef(None, _) | Literal(_, _) | Star =>
      return e, false;
  }

  method FixOptional(e: Option<Expression>, schema: Snapshot) returns (fixed: Option<Expression>, changed: bool)
    ensures fixed == FixedOptional(e, schema) && Flagged(e, SettledOptional(e, schema), fixed, changed)
    decreases e, 1
  {
    if e.None? { return None, false; }
    var f, c := FixExpr(e.value, schema);
    return Some(f), c;
  }

  method FixExprs(es: seq<Expression>, schema: Snapshot) returns (fixed: seq<Expression>, changed: bool)
    ensures fixed == FixedExprs(es, schema) && Flagged(es, SettledExprs(es, schema), fixed, changed)
    decreases es, 1
  {
    fixed, changed := [], false;
    ghost var settled := true;
    for i := 0 to |es|
      invariant fixed == FixedExprs(es, schema)[..i]
      invariant settled <==> forall j :: 0 <= j < i ==> SettledExpr(es[j], schema)
      invariant Flagged(es[..i], settled, fixed, changed)
    {
      var f, c := FixExpr(es[i], schema);
      FlagAppends(es, i, settled, SettledExpr(es[i], schema), fixed, f, changed, c);
      settled := settled && SettledExpr(es[i], schema);
      fixed, changed := fixed + [f], changed || c;
    }
    assert es[..|es|] == es;
  }

  lemma FlagAppends<T>(
    xs: seq<T>, i: nat, settled: bool, item: bool, fixed: seq<T>, f: T, changed: bool, c: bool)
    requires i < |xs| && |fixed| == i
    requires Flagged(xs[..i], settled, fixed, changed) && Flagged(xs[i], item, f, c)
    ensures Flagged(xs[..i + 1], settled && item, fixed + [f], changed || c)
  {
    assert xs[..i + 1] == xs[..i] + [xs[i]];
  }

  method FixBranches(ws: seq<WhenThen>, schema: Snapshot) returns (fixed: seq<WhenThen>, changed: bool)
    ensures fixed == FixedBranches(ws, schema) && Flagged(ws, SettledBranches(ws, schema), fixed, changed)
    decreases ws, 2
  {
    fixed, changed := [], false;
    ghost var settled := true;
    for i := 0 to |ws|
      invariant fixed == FixedBranches(ws, schema)[..i]
      invariant settled <==> forall j :: 0 <= j < i ==> SettledBranch(ws[j], schema)
      invariant Flagged(ws[..i], settled, fixed, changed)
    {
      assert ws decreases to ws[i];
      var w, c := FixExpr(ws[i].when, schema);
      var t, d := FixExpr(ws[i].then_, schema);
      FlagAppends(ws, i, settled, SettledBranch(ws[i], schema), fixed, WhenThen(w, t), changed, c || d);
      settled := settled && SettledBranch(ws[i], schema);
      fixed, changed := fixed + [WhenThen(w, t)], changed || c || d;
    }
    assert ws[..|ws|] == ws;
  }

  method FixPred(p: Predicate, schema: Snapshot) returns (fixed: Predicate, changed: bool)
    ensures fixed == FixedPred(p, schema) && Flagged(p, SettledPred(p, schema), fixed, changed)
    decreases p, 0
  {
    match p
    case Comparison(left, op, right) =>
      var l, c := FixExpr(left, schema);
      var r, d := FixExpr(right, schema);
      return Comparison(l, op, r), c || d;
    case And(left, right) =>
      var l, c := FixPred(left, schema);
      var r, d := FixPred(right, schema);
      return And(l, r), c || d;
    case Or(left, right) =>
      var l, c := FixPred(left, schema);
      var r, d := FixPred(right, schema);
      return Or(l, r), c || d;
    case Not(child) =>
      var q, c := FixPred(child, schema);
      return Not(q), c;
    case Between(expr, low, high) =>
      var e, c := FixExpr(expr, schema);
      var lo, d := FixExpr(low, schema);
      var hi, f := FixExpr(high, schema);
      return Between(e, lo, hi), c || d || f;
    case In(expr, target) =>
      var e, c := FixExpr(expr, schema);
      if target.Values? { return In(e, target), c; }
      var cell := new PlanCell(target.query);
      var d := FixPlan(cell, schema);
      return In(e, Query(cell.plan)), c || d;
    case Like(expr, pattern) =>
      var e, c := FixExpr(expr, schema);
      return Like(e, pattern), c;
    case IsNull(expr) =>
      var e, c := FixExpr(expr, schema);
      return IsNull(e), c;
    case Exists(query) =>
      var cell := new PlanCell(query);
      var c := FixPlan(cell, schema);
      return Exists(cell.plan), c;
    case True | False =>
      return p, false;
  }

  method FixOptionalPred(p: Option<Predicate>, schema: Snapshot) returns (fixed: Option<Predicate>, changed: bool)
    ensures fixed == FixedOptionalPred(p, schema) && Flagged(p, SettledOptionalPred(p, schema), fixed, changed)
    decreases p, 1
  {
    if p.None? { return None, false; }
    var f, c := FixPred(p.value, schema);
    return Some(f), c;
  }

  method FixSelect(ps: seq<Projection>, schema: Snapshot) returns (fixed: seq<Projection>, changed: bool)
    ensures fixed == FixedSelect(ps, schema) && Flagged(ps, SettledSelect(ps, schema), fixed, changed)
    decreases ps, 2
  {
    hide Requalified, Settled;
    fixed, changed := [], false;
    ghost var settled := true;
    for i := 0 to |ps|
      invariant fixed == FixedSelect(ps, schema)[..i]
      invariant settled <==> forall j :: 0 <= j < i ==> SettledProjection(ps[j], schema)
      invariant Flagged(ps[..i], settled, fixed, changed)
    {
      assert ps decreases to ps[i];
      var f, c := ps[i], false;
      match ps[i] {
        case Expr(e, alias) =>
          var g, d := FixExpr(e, schema);
          f, c := Expr(g, alias), d;
        case Column(Some(table), column, alias) =>
          var moved, d := FixQualifier(table, column, schema);
          f, c := Column(Some(moved), column, alias), d;
        case _ =>
      }
      assert f == FixedProjection(ps[i], schema);
      FlagAppends(ps, i, settled, SettledProjection(ps[i], schema), fixed, f, changed, c);
      settled := settled && SettledProjection(ps[i], schema);
      fixed, changed := fixed + [f], changed || c;
    }
    assert ps[..|ps|] == ps;
  }

  /** `Vec::retain` with the GROUP BY test. */
  method RetainGroup(es: seq<Expression>, schema: Snapshot) returns (kept: seq<Expression>)
    ensures kept == KeepRetained(es, schema)
  {
    kept := [];
    for i := 0 to |es|
      invariant kept == KeepRetained(es[..i], schema)
    {
      assert es[..i + 1][..i] == es[..i];
      var keep := true;
      if es[i].ColumnRef? && es[i].table.Some? && !Resolves(schema, es[i].table.value, es[i].column) {
        var found := FindColumnViaFk(es[i].table.value, es[i].column, schema);
        keep := found.Some?;
      }
      if keep { kept := kept + [es[i]]; }
    }
    assert es[..|es|] == es;
  }

  method FixGroup(c: Clause<Expression>, schema: Snapshot) returns (fixed: Clause<Expression>, changed: bool)
    ensures fixed == FixedGroup(c, schema) && Flagged(c, SettledGroup(c, schema), fixed, changed)
    decreases c, 2
  {
    if c.Absent? { return Absent, false; }
    var es, d := FixExprs(c.items, schema);
    var kept := RetainGroup(es, schema);
    KeptAreRetained(es, schema);
    if !d {
      forall i | 0 <= i < |es| ensures Retained(es[i], schema) <==> GroupResolves(es[i], schema) {
        RetainIsResolution(es[i], schema);
      }
      assert |kept| == |es| ==> forall i :: 0 <= i < |es| ==> es[i] in kept;
    }
    return Given(kept), d || |kept| != |es|;
  }

  method FixOrderBy(c: Clause<OrderByTerm>, schema: Snapshot) returns (fixed: Clause<OrderByTerm>, changed: bool)
    ensures fixed == FixedOrderBy(c, schema) && Flagged(c, SettledOrderBy(c, schema), fixed, changed)
    decreases c, 2
  {
    if c.Absent? { return Absent, false; }
    var ts := c.items;
    var us := [];
    changed := false;
    ghost var settled := true;
    for i := 0 to |ts|
      invariant us == FixedOrderBy(c, schema).items[..i]
      invariant settled <==> forall j :: 0 <= j < i ==> SettledTerm(ts[j], schema)
      invariant Flagged(ts[..i], settled, us, changed)
    {
      assert c decreases to ts[i];
      var e, d := FixExpr(ts[i].expr, schema);
      FlagAppends(ts, i, settled, SettledTerm(ts[i], schema), us, ts[i].(expr := e), changed, d);
      settled := settled && SettledTerm(ts[i], schema);
      us, changed := us + [ts[i].(expr := e)], changed || d;
    }
    assert ts[..|ts|] == ts;
    fixed := Given(us);
  }

  method FixJoins(c: Clause<JoinClause>, schema: Snapshot) returns (fixed: Clause<JoinClause>, changed: bool)
    ensures fixed == FixedJoins(c, schema) && Flagged(c, SettledJoins(c, schema), fixed, changed)
    decreases c, 2
  {
    if c.Absent? { return Absent, false; }
    var js := c.items;
    var ks := [];
    changed := false;
    ghost var settled := true;
    for i := 0 to |js|
      invariant ks == FixedJoins(c, schema).items[..i]
      invariant settled <==> forall j :: 0 <= j < i ==> SettledJoin(js[j], schema)
      invariant Flagged(js[..i], settled, ks, changed)
    {
      assert c decreases to js[i];
      var p, d := FixPred(js[i].on, schema);
      FlagAppends(js, i, settled, SettledJoin(js[i], schema), ks, js[i].(on := p), changed, d);
      settled := settled && SettledJoin(js[i], schema);
      ks, changed := ks + [js[i].(on := p)], changed || d;
    }
    assert js[..|js|] == js;
    fixed := Given(ks);
  }

  method FixCtes(c: Clause<CommonTableExpression>, schema: Snapshot)
    returns (fixed: Clause<CommonTableExpression>, changed: bool)
    ensures fixed == FixedCtes(c, schema) && Flagged(c, SettledCtes(c, schema), fixed, changed)
    decreases c, 2
  {
    if c.Absent? { return Absent, false; }
    var cs := c.items;
    var ds := [];
    changed := false;
    ghost var settled := true;
    for i := 0 to |cs|
      invariant ds == FixedCtes(c, schema).items[..i]
      invariant settled <==> forall j :: 0 <= j < i ==> SettledCte(cs[j], schema)
      invariant Flagged(cs[..i], settled, ds, changed)
    {
      assert c decreases to cs[i];
      var cell := new PlanCell(cs[i].query);
      var d := FixPlan(cell, schema);
      FlagAppends(cs, i, settled, SettledCte(cs[i], schema), ds, cs[i].(query := cell.plan), changed, d);
      settled := settled && SettledCte(cs[i], schema);
      ds, changed := ds + [cs[i].(query := cell.plan)], changed || d;
    }
    assert cs[..|cs|] == cs;
    fixed := Given(ds);
  }

  method FixPlan(cell: PlanCell, schema: Snapshot) returns (changed: bool)
    modifies cell
    ensures cell.plan == FixedPlan(old(cell.plan), schema)
    ensures Flagged(old(cell.plan), SettledPlan(old(cell.plan), schema), cell.plan, changed)
    decreases cell.plan, 0
  {
    hide FixedSelect, FixedOptionalPred, FixedGroup, FixedOrderBy, FixedJoins, FixedCtes;
    var plan := cell.plan;
    var select, c1 := FixSelect(plan.select, schema);
    var where_, c2 := FixOptionalPred(plan.where_, schema);
    var having, c3 := FixOptionalPred(plan.having, schema);
    var groupBy, c4 := FixGroup(plan.groupBy, schema);
    var orderBy, c5 := FixOrderBy(plan.orderBy, schema);
    var joins, c6 := FixJoins(plan.joins, schema);
    var ctes, c7 := FixCtes(plan.ctes, schema);
    var setOperation, c8 := plan.setOperation, false;
    if plan.setOperation.Some? {
      var right := new PlanCell(plan.setOperation.value.right);
      c8 := FixPlan(right, schema);
      setOperation := Some(plan.setOperation.value.(right := right.plan));
    }
    cell.plan := plan.(select := select, where_ := where_, having := having, groupBy := groupBy, orderBy := orderBy,
                       joins := joins, ctes := ctes, setOperation := setOperation);
    changed := c1 || c2 || c3 || c4 || c5 || c6 || c7 || c8;
  }
}
