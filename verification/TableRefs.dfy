/** The table qualifiers a plan mentions (crates/vlorql-core/src/fix/joins.rs, first half). */
module TableRefs {
  import opened Prelude
  import opened Ast

  // ---- tables mentioned by a plan -----------------------------------------

  function Named(t: Option<string>): set<string> {
    if t.Some? then {t.value} else {}
  }

  function TablesInOptional(e: Option<Expression>): set<string>
    decreases e, 1
  {
    if e.Some? then TablesInExpr(e.value) else {}
  }

  function TablesInExpr(e: Expression): set<string>
    decreases e, 0
  {
    match e
    case ColumnRef(t, _) => Named(t)
    case FunctionCall(_, args, _) => TablesInExprs(args)
    case BinaryOp(left, _, right) => TablesInExpr(left) + TablesInExpr(right)
    case Case(operand, whenThens, elseResult) =>
      TablesInOptional(operand) + TablesInBranches(whenThens) + TablesInOptional(elseResult)
    case SubQuery(query) => TablesInPlan(query)
    case WindowFunction(_, args, _, _) => TablesInExprs(args)
    case Literal(_, _) | Star => {}
  }

  function TablesInExprs(es: seq<Expression>): set<string>
    decreases es, 0
  {
    if es == [] then {} else TablesInExprs(es[..|es| - 1]) + TablesInExpr(es[|es| - 1])
  }

  function TablesInBranches(ws: seq<WhenThen>): set<string>
    decreases ws, 0
  {
    if ws == [] then {}
    else
      var w := ws[|ws| - 1];
      TablesInBranches(ws[..|ws| - 1]) + TablesInBranch(w)
  }

  function TablesInBranch(w: WhenThen): set<string>
    decreases w, 1
  {
    TablesInExpr(w.when) + TablesInExpr(w.then_)
  }

  function TablesInPred(p: Predicate): set<string>
    decreases p, 0
  {
    match p
    case Comparison(left, _, right) => TablesInExpr(left) + TablesInExpr(right)
    case And(l, r) => TablesInPred(l) + TablesInPred(r)
    case Or(l, r) => TablesInPred(l) + TablesInPred(r)
    case Not(child) => TablesInPred(child)
    case Between(expr, low, high) => TablesInExpr(expr) + TablesInExpr(low) + TablesInExpr(high)
    case In(expr, Query(query)) => TablesInExpr(expr) + TablesInPlan(query)
    case In(expr, Values(_)) => TablesInExpr(expr)
    case Like(expr, _) => TablesInExpr(expr)
    case IsNull(expr) => TablesInExpr(expr)
    case Exists(query) => TablesInPlan(query)
    case True | False => {}
  }

  function TablesInOptionalPred(p: Option<Predicate>): set<string>
    decreases p, 1
  {
    if p.Some? then TablesInPred(p.value) else {}
  }

  function TablesInProjection(p: Projection): set<string>
    decreases p, 1
  {
    match p
    case Column(t, _, _) => Named(t)
    case Expr(e, _) => TablesInExpr(e)
    case AllColumns(t) => Named(t)
  }

  function TablesInSelect(ps: seq<Projection>): set<string>
    decreases ps, 2
  {
    if ps == [] then {} else TablesInSelect(ps[..|ps| - 1]) + TablesInProjection(ps[|ps| - 1])
  }

  function TablesInTerm(t: OrderByTerm): set<string>
    decreases t, 1
  {
    TablesInExpr(t.expr)
  }

  function TablesInTerms(ts: seq<OrderByTerm>): set<string>
    decreases ts, 2
  {
    if ts == [] then {} else TablesInTerms(ts[..|ts| - 1]) + TablesInTerm(ts[|ts| - 1])
  }

  function TablesInJoin(j: JoinClause): set<string>
    decreases j, 1
  {
    TablesInPred(j.on)
  }

  function TablesInJoins(js: seq<JoinClause>): set<string>
    decreases js, 2
  {
    if js == [] then {} else TablesInJoins(js[..|js| - 1]) + TablesInJoin(js[|js| - 1])
  }

  function TablesInCte(c: CommonTableExpression): set<string>
    decreases c, 1
  {
    TablesInPlan(c.query)
  }

  function TablesInCtes(cs: seq<CommonTableExpression>): set<string>
    decreases cs, 2
  {
    if cs == [] then {} else TablesInCtes(cs[..|cs| - 1]) + TablesInCte(cs[|cs| - 1])
  }

  /** What a nested plan contributes: not its GROUP BY or HAVING, but its joins and CTEs. */
  function TablesInPlan(plan: QueryPlan): set<string>
    decreases plan, 3
  {
    TablesInSelect(plan.select) + TablesInOptionalPred(plan.where_)
    + TablesInOrderBy(plan.orderBy) + TablesInJoinClause(plan.joins) + TablesInWith(plan.ctes)
  }

  function TablesInOrderBy(c: Clause<OrderByTerm>): set<string>
    decreases c, 3
  {
    if c.Given? then TablesInTerms(c.items) else {}
  }

  function TablesInJoinClause(c: Clause<JoinClause>): set<string>
    decreases c, 3
  {
    if c.Given? then TablesInJoins(c.items) else {}
  }

  function TablesInWith(c: Clause<CommonTableExpression>): set<string>
    decreases c, 3
  {
    if c.Given? then TablesInCtes(c.items) else {}
  }

  /** What the plan being repaired refers to: not its join conditions or CTEs. */
  function Referenced(plan: QueryPlan): set<string> {
    TablesInSelect(plan.select) + TablesInOptionalPred(plan.where_) + TablesInOptionalPred(plan.having)
    + TablesInOrderBy(plan.orderBy) + (if plan.groupBy.Given? then TablesInExprs(plan.groupBy.items) else {})
  }

  // ---- the collectors -----------------------------------------------------

  /** A hash set of names that the collectors insert into. */
  class NameSet {
    var names: set<string>

    constructor ()
      ensures names == {}
    {
      names := {};
    }

    method Insert(name: string)
      modifies this
      ensures names == old(names) + {name}
    {
      names := names + {name};
    }
  }

  method CollectTablesInExprs(es: seq<Expression>, tables: NameSet)
    modifies tables
    ensures tables.names == old(tables.names) + TablesInExprs(es)
    decreases es, 0
  {
    for i := 0 to |es|
      invariant tables.names == old(tables.names) + TablesInExprs(es[..i])
    {
      CollectTablesInExpr(es[i], tables);
      assert es[..i + 1][..i] == es[..i];
    }
    assert es[..|es|] == es;
  }

  method CollectTablesInBranches(ws: seq<WhenThen>, tables: NameSet)
    modifies tables
    ensures tables.names == old(tables.names) + TablesInBranches(ws)
    decreases ws, 0
  {
    for i := 0 to |ws|
      invariant tables.names == old(tables.names) + TablesInBranches(ws[..i])
    {
      assert ws decreases to ws[i];
      CollectTablesInExpr(ws[i].when, tables);
      CollectTablesInExpr(ws[i].then_, tables);
      assert ws[..i + 1][..i] == ws[..i];
    }
    assert ws[..|ws|] == ws;
  }

  method CollectTablesInExpr(e: Expression, tables: NameSet)
    modifies tables
    ensures tables.names == old(tables.names) + TablesInExpr(e)
    decreases e, 0
  {
    match e
    case ColumnRef(t, _) => if t.Some? { tables.Insert(t.value); }
    case FunctionCall(_, args, _) => CollectTablesInExprs(args, tables);
    case BinaryOp(left, _, right) =>
      CollectTablesInExpr(left, tables);
      CollectTablesInExpr(right, tables);
    case Case(operand, whenThens, elseResult) =>
      if operand.Some? { CollectTablesInExpr(operand.value, tables); }
      CollectTablesInBranches(whenThens, tables);
      if elseResult.Some? { CollectTablesInExpr(elseResult.value, tables); }
    case SubQuery(query) => CollectTablesInPlan(query, tables);
    case WindowFunction(_, args, _, _) => CollectTablesInExprs(args, tables);
    case Literal(_, _) | Star =>
  }

  method CollectTablesInPred(p: Predicate, tables: NameSet)
    modifies tables
    ensures tables.names == old(tables.names) + TablesInPred(p)
    decreases p, 0
  {
    match p
    case Comparison(left, _, right) =>
      CollectTablesInExpr(left, tables);
      CollectTablesInExpr(right, tables);
    case And(l, r) =>
      CollectTablesInPred(l, tables);
      CollectTablesInPred(r, tables);
    case Or(l, r) =>
      CollectTablesInPred(l, tables);
      CollectTablesInPred(r, tables);
    case Not(child) => CollectTablesInPred(child, tables);
    case Between(expr, low, high) =>
      CollectTablesInExpr(expr, tables);
      CollectTablesInExpr(low, tables);
      CollectTablesInExpr(high, tables);
    case In(expr, target) =>
      CollectTablesInExpr(expr, tables);
      if target.Query? { CollectTablesInPlan(target.query, tables); }
    case Like(expr, _) => CollectTablesInExpr(expr, tables);
    case IsNull(expr) => CollectTablesInExpr(expr, tables);
    case Exists(query) => CollectTablesInPlan(query, tables);
    case True | False =>
  }

  method CollectTablesInSelect(ps: seq<Projection>, tables: NameSet)
    modifies tables
    ensures tables.names == old(tables.names) + TablesInSelect(ps)
    decreases ps, 2
  {
    for i := 0 to |ps|
      invariant tables.names == old(tables.names) + TablesInSelect(ps[..i])
    {
      assert ps decreases to ps[i];
      match ps[i] {
        case Column(t, _, _) => if t.Some? { tables.Insert(t.value); }
        case Expr(e, _) => CollectTablesInExpr(e, tables);
        case AllColumns(t) => if t.Some? { tables.Insert(t.value); }
      }
      assert ps[..i + 1][..i] == ps[..i];
    }
    assert ps[..|ps|] == ps;
  }

  method CollectTablesInTerms(ts: seq<OrderByTerm>, tables: NameSet)
    modifies tables
    ensures tables.names == old(tables.names) + TablesInTerms(ts)
    decreases ts, 2
  {
    for i := 0 to |ts|
      invariant tables.names == old(tables.names) + TablesInTerms(ts[..i])
    {
      assert ts decreases to ts[i];
      CollectTablesInExpr(ts[i].expr, tables);
      assert ts[..i + 1][..i] == ts[..i];
    }
    assert ts[..|ts|] == ts;
  }

  method CollectTablesInJoins(js: seq<JoinClause>, tables: NameSet)
    modifies tables
    ensures tables.names == old(tables.names) + TablesInJoins(js)
    decreases js, 2
  {
    for i := 0 to |js|
      invariant tables.names == old(tables.names) + TablesInJoins(js[..i])
    {
      assert js decreases to js[i];
      CollectTablesInPred(js[i].on, tables);
      assert js[..i + 1][..i] == js[..i];
    }
    assert js[..|js|] == js;
  }

  method CollectTablesInCtes(cs: seq<CommonTableExpression>, tables: NameSet)
    modifies tables
    ensures tables.names == old(tables.names) + TablesInCtes(cs)
    decreases cs, 2
  {
    for i := 0 to |cs|
      invariant tables.names == old(tables.names) + TablesInCtes(cs[..i])
    {
      assert cs decreases to cs[i];
      CollectTablesInPlan(cs[i].query, tables);
      assert cs[..i + 1][..i] == cs[..i];
    }
    assert cs[..|cs|] == cs;
  }

  method CollectTablesInPlan(plan: QueryPlan, tables: NameSet)
    modifies tables
    ensures tables.names == old(tables.names) + TablesInPlan(plan)
    decreases plan, 3
  {
    CollectTablesInSelect(plan.select, tables);
    if plan.where_.Some? { CollectTablesInPred(plan.where_.value, tables); }
    if plan.orderBy.Given? { CollectTablesInTerms(plan.orderBy.items, tables); }
    if plan.joins.Given? { CollectTablesInJoins(plan.joins.items, tables); }
    if plan.ctes.Given? { CollectTablesInCtes(plan.ctes.items, tables); }
  }

  /** The first half of `fix_missing_joins`. */
  method CollectReferenced(plan: QueryPlan) returns (referenced: set<string>)
    ensures referenced == Referenced(plan)
  {
    var tables := new NameSet();
    CollectTablesInSelect(plan.select, tables);
    if plan.where_.Some? { CollectTablesInPred(plan.where_.value, tables); }
    if plan.having.Some? { CollectTablesInPred(plan.having.value, tables); }
    if plan.orderBy.Given? { CollectTablesInTerms(plan.orderBy.items, tables); }
    if plan.groupBy.Given? { CollectTablesInExprs(plan.groupBy.items, tables); }
    referenced := tables.names;
  }
}
