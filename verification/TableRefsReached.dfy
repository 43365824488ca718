/**
 Which names the collectors find (crates/vlorql-core/src/fix/joins.rs): those carried by a
 reference that a chain of visited parts leads to.
 */
module TableRefsReached {
  import opened Prelude
  import opened Ast
  import opened TableRefs

  /** The kinds of thing that are visited. */
  datatype Node = ExprNode(e: Expression) | PredNode(p: Predicate) | ProjectionNode(proj: Projection) | PlanNode(plan: QueryPlan)

  /** `m` is an immediate part of `n` that is visited. */
  ghost predicate IsPart(m: Node, n: Node) {
    match n
    case ExprNode(e) => IsPartOfExpr(m, e)
    case PredNode(p) => IsPartOfPred(m, p)
    case ProjectionNode(proj) => proj.Expr? && m == ExprNode(proj.expression)
    case PlanNode(plan) => IsPartOfPlan(m, plan)
  }

  ghost predicate IsPartOfExpr(m: Node, e: Expression) {
    match e
    case FunctionCall(_, args, _) => m.ExprNode? && m.e in args
    case WindowFunction(_, args, _, _) => m.ExprNode? && m.e in args
    case BinaryOp(left, _, right) => m == ExprNode(left) || m == ExprNode(right)
    case Case(operand, whenThens, elseResult) =>
      && m.ExprNode?
      && (operand == Some(m.e) || elseResult == Some(m.e)
          || exists w :: w in whenThens && (m.e == w.when || m.e == w.then_))
    case SubQuery(query) => m == PlanNode(query)
    case _ => false
  }

  /** The values of an IN list are not visited. */
  ghost predicate IsPartOfPred(m: Node, p: Predicate) {
    match p
    case Comparison(left, _, right) => m == ExprNode(left) || m == ExprNode(right)
    case And(l, r) => m == PredNode(l) || m == PredNode(r)
    case Or(l, r) => m == PredNode(l) || m == PredNode(r)
    case Not(child) => m == PredNode(child)
    case Between(expr, low, high) => m == ExprNode(expr) || m == ExprNode(low) || m == ExprNode(high)
    case In(expr, target) => m == ExprNode(expr) || (target.Query? && m == PlanNode(target.query))
    case Like(expr, _) => m == ExprNode(expr)
    case IsNull(expr) => m == ExprNode(expr)
    case Exists(query) => m == PlanNode(query)
    case True | False => false
  }

  /** Of a nested plan, neither GROUP BY nor HAVING is visited. */
  ghost predicate IsPartOfPlan(m: Node, plan: QueryPlan) {
    || (m.ProjectionNode? && m.proj in plan.select)
    || (m.PredNode? && plan.where_ == Some(m.p))
    || (m.ExprNode? && exists t :: t in plan.orderBy.Items() && t.expr == m.e)
    || (m.PredNode? && exists j :: j in plan.joins.Items() && j.on == m.p)
    || (m.PlanNode? && exists c :: c in plan.ctes.Items() && c.query == m.plan)
  }

  /** Of the plan being repaired, neither the join conditions nor the CTEs are. */
  ghost predicate IsRootPart(m: Node, plan: QueryPlan) {
    || (m.ProjectionNode? && m.proj in plan.select)
    || (m.PredNode? && (plan.where_ == Some(m.p) || plan.having == Some(m.p)))
    || (m.ExprNode? && exists t :: t in plan.orderBy.Items() && t.expr == m.e)
    || (m.ExprNode? && m.e in plan.groupBy.Items())
  }

  /** `n` is itself a reference qualified by `name`. */
  predicate Carries(n: Node, name: string) {
    || (n.ExprNode? && n.e.ColumnRef? && n.e.table == Some(name))
    || (n.ProjectionNode? && n.proj.Column? && n.proj.table == Some(name))
    || (n.ProjectionNode? && n.proj.AllColumns? && n.proj.table == Some(name))
  }

  ghost predicate Leads(path: seq<Node>, n: Node, name: string) {
    && path != [] && path[0] == n && Carries(path[|path| - 1], name)
    && forall i :: 0 < i < |path| ==> IsPart(path[i], path[i - 1])
  }

  ghost predicate Reaches(n: Node, name: string) {
    exists path :: Leads(path, n, name)
  }

  function TablesOf(n: Node): set<string> {
    match n
    case ExprNode(e) => TablesInExpr(e)
    case PredNode(p) => TablesInPred(p)
    case ProjectionNode(proj) => TablesInProjection(proj)
    case PlanNode(plan) => TablesInPlan(plan)
  }

  // ---- lists --------------------------------------------------------------

  lemma {:induction false} InExprs(es: seq<Expression>, name: string)
    ensures name in TablesInExprs(es) <==> exists e :: e in es && name in TablesInExpr(e)
  {
    hide TablesInExpr;
    if es != [] {
      InExprs(es[..|es| - 1], name);
      var front, last := es[..|es| - 1], es[|es| - 1];
      assert last in es && es == front + [last];
      if e :| e in es && name in TablesInExpr(e) {
        assert e in front || e == last;
      }
    }
  }

  lemma {:induction false} InBranches(ws: seq<WhenThen>, name: string)
    ensures name in TablesInBranches(ws) <==>
      exists w :: w in ws && (name in TablesInExpr(w.when) || name in TablesInExpr(w.then_))
  {
    hide TablesInExpr;
    if ws != [] {
      InBranches(ws[..|ws| - 1], name);
      assert ws == ws[..|ws| - 1] + [ws[|ws| - 1]];
    }
  }

  lemma {:induction false} InSelect(ps: seq<Projection>, name: string)
    ensures name in TablesInSelect(ps) <==> exists p :: p in ps && name in TablesInProjection(p)
  {
    hide TablesInProjection;
    if ps != [] {
      InSelect(ps[..|ps| - 1], name);
      var front, last := ps[..|ps| - 1], ps[|ps| - 1];
      assert last in ps && ps == front + [last];
      if p :| p in ps && name in TablesInProjection(p) {
        assert p in front || p == last;
      }
    }
  }

  lemma {:induction false} InTerms(ts: seq<OrderByTerm>, name: string)
    ensures name in TablesInTerms(ts) <==> exists t :: t in ts && name in TablesInExpr(t.expr)
  {
    hide TablesInExpr;
    if ts != [] {
      InTerms(ts[..|ts| - 1], name);
      var front, last := ts[..|ts| - 1], ts[|ts| - 1];
      assert last in ts && ts == front + [last];
      if t :| t in ts && name in TablesInExpr(t.expr) {
        assert t in front || t == last;
      }
    }
  }

  lemma {:induction false} InJoins(js: seq<JoinClause>, name: string)
    ensures name in TablesInJoins(js) <==> exists j :: j in js && name in TablesInPred(j.on)
  {
    hide TablesInPred;
    if js != [] {
      InJoins(js[..|js| - 1], name);
      var front, last := js[..|js| - 1], js[|js| - 1];
      assert last in js && js == front + [last];
      if j :| j in js && name in TablesInPred(j.on) {
        assert j in front || j == last;
      }
    }
  }

  lemma {:induction false} InCtes(cs: seq<CommonTableExpression>, name: string)
    ensures name in TablesInCtes(cs) <==> exists c :: c in cs && name in TablesInPlan(c.query)
  {
    hide TablesInPlan;
    if cs != [] {
      InCtes(cs[..|cs| - 1], name);
      var front, last := cs[..|cs| - 1], cs[|cs| - 1];
      assert last in cs && cs == front + [last];
      if c :| c in cs && name in TablesInPlan(c.query) {
        assert c in front || c == last;
      }
    }
  }

  // ---- one step -----------------------------------------------------------

  ghost predicate InSomePart(n: Node, name: string) {
    exists m :: IsPart(m, n) && name in TablesOf(m)
  }

  lemma ExprStep(e: Expression, name: string)
    ensures name in TablesInExpr(e) <==> Carries(ExprNode(e), name) || InSomePart(ExprNode(e), name)
  {
    var n := ExprNode(e);
    match e
    case FunctionCall(_, args, _) => ArgsStep(n, args, name);
    case WindowFunction(_, args, _, _) => ArgsStep(n, args, name);
    case BinaryOp(left, _, right) =>
      assert IsPart(ExprNode(left), n) && IsPart(ExprNode(right), n);
      assert TablesOf(ExprNode(left)) == TablesInExpr(left) && TablesOf(ExprNode(right)) == TablesInExpr(right);
    case Case(operand, whenThens, elseResult) => CaseStep(e, name);
    case SubQuery(query) =>
      assert IsPart(PlanNode(query), n) && TablesOf(PlanNode(query)) == TablesInPlan(query);
    case _ =>
  }

  lemma ArgsStep(n: Node, args: seq<Expression>, name: string)
    requires forall m :: IsPart(m, n) <==> m.ExprNode? && m.e in args
    ensures name in TablesInExprs(args) <==> InSomePart(n, name)
  {
    hide TablesInExpr, IsPart, TablesInExprs;
    InExprs(args, name);
    if e :| e in args && name in TablesInExpr(e) {
      assert IsPart(ExprNode(e), n) && name in TablesOf(ExprNode(e));
    }
  }

  lemma CaseStep(e: Expression, name: string)
    requires e.Case?
    ensures name in TablesInExpr(e) <==> InSomePart(ExprNode(e), name)
  {
    hide TablesInBranches;
    var n := ExprNode(e);
    InBranches(e.whenThens, name);
    if e.operand.Some? { assert IsPart(ExprNode(e.operand.value), n); }
    if e.elseResult.Some? { assert IsPart(ExprNode(e.elseResult.value), n); }
    if w :| w in e.whenThens && (name in TablesInExpr(w.when) || name in TablesInExpr(w.then_)) {
      assert IsPart(ExprNode(w.when), n) && IsPart(ExprNode(w.then_), n);
      assert TablesOf(ExprNode(w.when)) == TablesInExpr(w.when) && TablesOf(ExprNode(w.then_)) == TablesInExpr(w.then_);
    }
  }

  lemma PredStep(p: Predicate, name: string)
    ensures name in TablesInPred(p) <==> InSomePart(PredNode(p), name)
  {
    hide TablesInExpr, TablesInPlan;
    var n := PredNode(p);
    match p
    case Comparison(left, _, right) => assert IsPart(ExprNode(left), n) && IsPart(ExprNode(right), n);
    case And(l, r) => assert IsPart(PredNode(l), n) && IsPart(PredNode(r), n);
    case Or(l, r) => assert IsPart(PredNode(l), n) && IsPart(PredNode(r), n);
    case Not(child) => assert IsPart(PredNode(child), n);
    case Between(expr, low, high) =>
      assert IsPart(ExprNode(expr), n) && IsPart(ExprNode(low), n) && IsPart(ExprNode(high), n);
    case In(expr, target) =>
      assert IsPart(ExprNode(expr), n);
      if target.Query? { assert IsPart(PlanNode(target.query), n); }
    case Like(expr, _) => assert IsPart(ExprNode(expr), n);
    case IsNull(expr) => assert IsPart(ExprNode(expr), n);
    case Exists(query) => assert IsPart(PlanNode(query), n);
    case True | False =>
  }

  lemma ProjectionStep(proj: Projection, name: string)
    ensures name in TablesInProjection(proj) <==>
      Carries(ProjectionNode(proj), name) || InSomePart(ProjectionNode(proj), name)
  {
    hide TablesInExpr;
    if proj.Expr? { assert IsPart(ExprNode(proj.expression), ProjectionNode(proj)); }
  }

  lemma PlanStep(plan: QueryPlan, name: string)
    ensures name in TablesInPlan(plan) <==> InSomePart(PlanNode(plan), name)
  {
    hide TablesInExpr, TablesInPred, TablesInProjection, TablesInSelect, TablesInTerms, TablesInJoins, TablesInCtes;
    var n := PlanNode(plan);
    InSelect(plan.select, name);
    InTerms(plan.orderBy.Items(), name);
    InJoins(plan.joins.Items(), name);
    InCtes(plan.ctes.Items(), name);
    if proj :| proj in plan.select && name in TablesInProjection(proj) { Part(ProjectionNode(proj), n, name); }
    if plan.where_.Some? && name in TablesInPred(plan.where_.value) { Part(PredNode(plan.where_.value), n, name); }
    if t :| t in plan.orderBy.Items() && name in TablesInExpr(t.expr) { Part(ExprNode(t.expr), n, name); }
    if j :| j in plan.joins.Items() && name in TablesInPred(j.on) { Part(PredNode(j.on), n, name); }
    if c :| c in plan.ctes.Items() && name in TablesInPlan(c.query) { Part(PlanNode(c.query), n, name); }
  }

  lemma Part(m: Node, n: Node, name: string)
    requires IsPart(m, n) && name in TablesOf(m)
    ensures InSomePart(n, name)
  {
  }

  /** A name is found in a node that carries it, or in a visited part. */
  lemma Step(n: Node, name: string)
    ensures name in TablesOf(n) <==> Carries(n, name) || InSomePart(n, name)
  {
    hide TablesInExpr, TablesInPred, TablesInProjection, TablesInPlan, InSomePart, Carries;
    match n
    case ExprNode(e) => ExprStep(e, name);
    case PredNode(p) => PredStep(p, name); NothingCarried(n, name);
    case ProjectionNode(proj) => ProjectionStep(proj, name);
    case PlanNode(plan) => PlanStep(plan, name); NothingCarried(n, name);
  }

  lemma NothingCarried(n: Node, name: string)
    requires n.PredNode? || n.PlanNode?
    ensures !Carries(n, name)
  {
  }

  // ---- all steps ----------------------------------------------------------

  lemma {:induction false} LedIsFound(path: seq<Node>, n: Node, name: string)
    requires Leads(path, n, name)
    ensures name in TablesOf(n)
    decreases |path|
  {
    hide IsPart, TablesOf, InSomePart, Carries;
    if |path| > 1 {
      var rest := path[1..];
      assert forall i :: 0 < i < |rest| ==> rest[i] == path[i + 1] && rest[i - 1] == path[i];
      assert Leads(rest, path[1], name);
      LedIsFound(rest, path[1], name);
      assert IsPart(path[1], path[0]);
      Part(path[1], n, name);
    }
    Step(n, name);
  }

  lemma ReachesThrough(m: Node, n: Node, name: string)
    requires IsPart(m, n) && Reaches(m, name)
    ensures Reaches(n, name)
  {
    hide IsPart, Carries;
    var path :| Leads(path, m, name);
    var longer := [n] + path;
    forall i | 0 < i < |longer| ensures IsPart(longer[i], longer[i - 1]) {
      if i > 1 { assert longer[i] == path[i - 1] && longer[i - 1] == path[i - 2]; }
    }
    assert Leads(longer, n, name);
  }

  lemma CarriedIsReached(n: Node, name: string)
    requires Carries(n, name)
    ensures Reaches(n, name)
  {
    hide Carries;
    assert Leads([n], n, name);
  }

  lemma {:induction false} FoundInExpr(e: Expression, name: string)
    requires name in TablesInExpr(e)
    ensures Reaches(ExprNode(e), name)
    decreases e
  {
    hide TablesInExpr, TablesInPlan, Carries, Reaches;
    var n := ExprNode(e);
    ExprStep(e, name);
    if Carries(n, name) {
      CarriedIsReached(n, name);
    } else {
      var m :| IsPart(m, n) && name in TablesOf(m);
      PartOfExprIsSmaller(m, e);
      if m.ExprNode? { FoundInExpr(m.e, name); } else { FoundInPlan(m.plan, name); }
      ReachesThrough(m, n, name);
    }
  }

  lemma PartOfExprIsSmaller(m: Node, e: Expression)
    requires IsPartOfExpr(m, e)
    ensures m.ExprNode? || m.PlanNode?
    ensures m.ExprNode? ==> (e decreases to m.e)
    ensures m.PlanNode? ==> (e decreases to m.plan)
  {
  }

  lemma {:induction false} FoundInPred(p: Predicate, name: string)
    requires name in TablesInPred(p)
    ensures Reaches(PredNode(p), name)
    decreases p
  {
    hide TablesInExpr, TablesInPred, TablesInPlan, Reaches;
    var n := PredNode(p);
    PredStep(p, name);
    var m :| IsPart(m, n) && name in TablesOf(m);
    match m {
      case ExprNode(e) => FoundInExpr(e, name);
      case PredNode(q) => FoundInPred(q, name);
      case PlanNode(plan) => FoundInPlan(plan, name);
    }
    ReachesThrough(m, n, name);
  }

  lemma {:induction false} FoundInProjection(proj: Projection, name: string)
    requires name in TablesInProjection(proj)
    ensures Reaches(ProjectionNode(proj), name)
    decreases proj
  {
    hide TablesInExpr, TablesInProjection, Carries, Reaches;
    var n := ProjectionNode(proj);
    ProjectionStep(proj, name);
    if Carries(n, name) {
      CarriedIsReached(n, name);
    } else {
      var m :| IsPart(m, n) && name in TablesOf(m);
      FoundInExpr(m.e, name);
      ReachesThrough(m, n, name);
    }
  }

  lemma {:induction false} FoundInPlan(plan: QueryPlan, name: string)
    requires name in TablesInPlan(plan)
    ensures Reaches(PlanNode(plan), name)
    decreases plan
  {
    hide TablesInExpr, TablesInPred, TablesInProjection, TablesInPlan, Reaches;
    var n := PlanNode(plan);
    PlanStep(plan, name);
    var m :| IsPart(m, n) && name in TablesOf(m);
    PartOfPlanIsSmaller(m, plan);
    match m {
      case ExprNode(e) => FoundInExpr(e, name);
      case PredNode(p) => FoundInPred(p, name);
      case ProjectionNode(proj) => FoundInProjection(proj, name);
      case PlanNode(q) => FoundInPlan(q, name);
    }
    ReachesThrough(m, n, name);
  }

  lemma PartOfPlanIsSmaller(m: Node, plan: QueryPlan)
    requires IsPartOfPlan(m, plan)
    ensures m.ExprNode? ==> (plan decreases to m.e)
    ensures m.PredNode? ==> (plan decreases to m.p)
    ensures m.ProjectionNode? ==> (plan decreases to m.proj)
    ensures m.PlanNode? ==> (plan decreases to m.plan)
  {
  }

  /** A name is collected from a node if and only if some visited reference carries it. */
  lemma CollectedIff(n: Node, name: string)
    ensures name in TablesOf(n) <==> Reaches(n, name)
  {
    hide TablesInExpr, TablesInPred, TablesInProjection, TablesInPlan, Leads;
    if name in TablesOf(n) {
      match n
      case ExprNode(e) => FoundInExpr(e, name);
      case PredNode(p) => FoundInPred(p, name);
      case ProjectionNode(proj) => FoundInProjection(proj, name);
      case PlanNode(plan) => FoundInPlan(plan, name);
    }
    if Reaches(n, name) {
      var path :| Leads(path, n, name);
      LedIsFound(path, n, name);
    }
  }

  /** The same of the whole plan being repaired. */
  lemma ReferencedIff(plan: QueryPlan, name: string)
    ensures name in Referenced(plan) <==> exists m :: IsRootPart(m, plan) && Reaches(m, name)
  {
    hide TablesInExpr, TablesInPred, TablesInProjection, TablesInSelect, TablesInTerms, TablesInExprs, Reaches;
    InSelect(plan.select, name);
    InTerms(plan.orderBy.Items(), name);
    InExprs(plan.groupBy.Items(), name);
    if proj :| proj in plan.select && name in TablesInProjection(proj) { Root(ProjectionNode(proj), plan, name); }
    if plan.where_.Some? && name in TablesInPred(plan.where_.value) { Root(PredNode(plan.where_.value), plan, name); }
    if plan.having.Some? && name in TablesInPred(plan.having.value) { Root(PredNode(plan.having.value), plan, name); }
    if t :| t in plan.orderBy.Items() && name in TablesInExpr(t.expr) { Root(ExprNode(t.expr), plan, name); }
    if e :| e in plan.groupBy.Items() && name in TablesInExpr(e) { Root(ExprNode(e), plan, name); }
    if m :| IsRootPart(m, plan) && Reaches(m, name) { CollectedIff(m, name); }
  }

  lemma Root(m: Node, plan: QueryPlan, name: string)
    requires IsRootPart(m, plan) && name in TablesOf(m)
    ensures exists m :: IsRootPart(m, plan) && Reaches(m, name)
  {
    hide IsRootPart, Reaches;
    CollectedIff(m, name);
  }
}
