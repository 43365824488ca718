/**
 What counts as an aggregate in GROUP BY repair (crates/vlorql-core/src/fix/group_by.rs), told by
 chains of visited parts, and what the repair therefore achieves.
 */
module GroupByAggregates {
  import opened Prelude
  import opened Ast
  import opened GroupBy

  // ---- aggregate calls ----------------------------------------------------

  /** `c` is the letter `l`, in either case. */
  predicate IsLetter(c: char, l: char) {
    c == l || (l in "abcdefghijklmnopqrstuvwxyz" && c as int + 32 == l as int)
  }

  /** `name` is the word, in any letter case. */
  predicate Spells(name: string, word: string) {
    |name| == |word| && forall i :: 0 <= i < |word| ==> IsLetter(name[i], word[i])
  }

  predicate NamesAggregate(name: string) {
    || Spells(name, "sum") || Spells(name, "count") || Spells(name, "avg") || Spells(name, "min") || Spells(name, "max")
  }

  function Lowered(name: string): (r: string)
    ensures |r| == |name| && forall i :: 0 <= i < |name| ==> r[i] == Lower(name[i])
  {
    seq(|name|, i requires 0 <= i < |name| => Lower(name[i]))
  }

  lemma SpellsIff(name: string, word: string)
    requires forall i :: 0 <= i < |word| ==> 'a' <= word[i] <= 'z'
    ensures Spells(name, word) <==> Lowered(name) == word
  {
    hide IsLetter, Lower;
    if |name| == |word| {
      forall i | 0 <= i < |word| ensures IsLetter(name[i], word[i]) <==> Lower(name[i]) == word[i] {
        LetterIff(name[i], word[i]);
      }
    }
  }

  lemma LetterIff(c: char, l: char)
    requires 'a' <= l <= 'z'
    ensures IsLetter(c, l) <==> Lower(c) == l
  {
  }

  /** A function is an aggregate exactly when it is called by one of the five names, in any letter case. */
  lemma AggregateNameIff(name: string)
    ensures IsAggregateName(name) <==> NamesAggregate(name)
  {
    hide Spells, Lower;
    assert Lowered(name) == seq(|name|, i requires 0 <= i < |name| => Lower(name[i]));
    SpellsIff(name, "sum");
    SpellsIff(name, "count");
    SpellsIff(name, "avg");
    SpellsIff(name, "min");
    SpellsIff(name, "max");
  }

  // ---- visited parts ------------------------------------------------------

  datatype Node = ExprNode(e: Expression) | PredNode(p: Predicate) | PlanNode(plan: QueryPlan)

  /** `m` is an immediate part of `n` that is searched. */
  ghost predicate IsPart(m: Node, n: Node) {
    match n
    case ExprNode(e) => m.ExprNode? && IsPartOfExpr(m.e, e)
    case PredNode(p) => IsPartOfPred(m, p)
    case PlanNode(plan) => IsPartOfPlan(m, plan)
  }

  /** Subqueries and window functions are not searched. */
  ghost predicate IsPartOfExpr(m: Expression, e: Expression) {
    match e
    case FunctionCall(_, args, _) => m in args
    case BinaryOp(left, _, right) => m == left || m == right
    case Case(operand, whenThens, elseResult) =>
      || operand == Some(m) || elseResult == Some(m)
      || exists w :: w in whenThens && (m == w.when || m == w.then_)
    case _ => false
  }

  /** The values of an IN list are not searched. */
  ghost predicate IsPartOfPred(m: Node, p: Predicate) {
    match p
    case Comparison(left, _, right) => m == ExprNode(left) || m == ExprNode(right)
    case And(l, r) => m == PredNode(l) || m == PredNode(r)
    case Or(l, r) => m == PredNode(l) || m == PredNode(r)
    case Not(child) => m == PredNode(child)
    case Between(expr, low, high) => m == ExprNode(expr) || m == ExprNode(low) || m == ExprNode(high)
    case In(expr, target) => m == ExprNode(expr) || (target.Query? && m == PlanNode(target.query))
    case Like(expr, _) => m == ExprNode(expr)
    case IsNull(expr) => m == ExprNode(expr)
    case Exists(query) => m == PlanNode(query)
    case True | False => false
  }

  /** Of a plan, the projected expressions and HAVING are searched. */
  ghost predicate IsPartOfPlan(m: Node, plan: QueryPlan) {
    || (m.ExprNode? && exists i :: 0 <= i < |plan.select| && plan.select[i].Expr? && plan.select[i].expression == m.e)
    || (m.PredNode? && plan.having == Some(m.p))
  }

  predicate IsAggregateCall(n: Node) {
    n.ExprNode? && n.e.FunctionCall? && NamesAggregate(n.e.name)
  }

  ghost predicate Leads(path: seq<Node>, n: Node) {
    && path != [] && path[0] == n && IsAggregateCall(path[|path| - 1])
    && forall i :: 0 < i < |path| ==> IsPart(path[i], path[i - 1])
  }

  /** A chain of searched parts leads to an aggregate call. */
  ghost predicate Aggregates(n: Node) {
    exists path :: Leads(path, n)
  }

  predicate Found(n: Node) {
    match n
    case ExprNode(e) => HasAggregate(e)
    case PredNode(p) => HasAggregateInPred(p)
    case PlanNode(plan) => PlanHasAggregates(plan)
  }

  ghost predicate FoundInPart(n: Node) {
    exists m :: IsPart(m, n) && Found(m)
  }

  // ---- one step -----------------------------------------------------------

  lemma Part(m: Node, n: Node)
    requires IsPart(m, n) && Found(m)
    ensures FoundInPart(n)
  {
  }

  lemma ExprStep(e: Expression)
    ensures HasAggregate(e) <==> IsAggregateCall(ExprNode(e)) || FoundInPart(ExprNode(e))
  {
    hide IsAggregateName, NamesAggregate;
    var n := ExprNode(e);
    match e
    case FunctionCall(name, args, _) =>
      AggregateNameIff(name);
      if i :| 0 <= i < |args| && HasAggregate(args[i]) { Part(ExprNode(args[i]), n); }
    case BinaryOp(left, _, right) =>
      if HasAggregate(left) { Part(ExprNode(left), n); }
      if HasAggregate(right) { Part(ExprNode(right), n); }
    case Case(operand, whenThens, elseResult) => CaseStep(e);
    case _ =>
  }

  lemma CaseStep(e: Expression)
    requires e.Case?
    ensures HasAggregate(e) <==> FoundInPart(ExprNode(e))
  {
    var n := ExprNode(e);
    if HasAggregateOptional(e.operand) { Part(ExprNode(e.operand.value), n); }
    if HasAggregateOptional(e.elseResult) { Part(ExprNode(e.elseResult.value), n); }
    if i :| 0 <= i < |e.whenThens| && HasAggregateBranch(e.whenThens[i]) {
      var w := e.whenThens[i];
      if HasAggregate(w.when) { Part(ExprNode(w.when), n); } else { Part(ExprNode(w.then_), n); }
    }
    if m :| IsPart(m, n) && Found(m) {
      if w :| w in e.whenThens && (m.e == w.when || m.e == w.then_) { assert HasAggregateBranch(w); }
    }
  }

  lemma PredStep(p: Predicate)
    ensures HasAggregateInPred(p) <==> FoundInPart(PredNode(p))
  {
    hide HasAggregate, PlanHasAggregates;
    var n := PredNode(p);
    match p
    case Comparison(left, _, right) => assert IsPart(ExprNode(left), n) && IsPart(ExprNode(right), n);
    case And(l, r) => assert IsPart(PredNode(l), n) && IsPart(PredNode(r), n);
    case Or(l, r) => assert IsPart(PredNode(l), n) && IsPart(PredNode(r), n);
    case Not(child) => assert IsPart(PredNode(child), n);
    case Between(expr, low, high) =>
      assert IsPart(ExprNode(expr), n) && IsPart(ExprNode(low), n) && IsPart(ExprNode(high), n);
    case In(expr, target) =>
      assert IsPart(ExprNode(expr), n);
      if target.Query? { assert IsPart(PlanNode(target.query), n); }
    case Like(expr, _) => assert IsPart(ExprNode(expr), n);
    case IsNull(expr) => assert IsPart(ExprNode(expr), n);
    case Exists(query) => assert IsPart(PlanNode(query), n);
    case True | False =>
  }

  lemma PlanStep(plan: QueryPlan)
    ensures PlanHasAggregates(plan) <==> FoundInPart(PlanNode(plan))
  {
    hide HasAggregate, HasAggregateInPred;
    var n := PlanNode(plan);
    if i :| 0 <= i < |plan.select| && plan.select[i].Expr? && HasAggregate(plan.select[i].expression) {
      Part(ExprNode(plan.select[i].expression), n);
    }
    if HasAggregateInHaving(plan.having) { Part(PredNode(plan.having.value), n); }
  }

  lemma Step(n: Node)
    ensures Found(n) <==> IsAggregateCall(n) || FoundInPart(n)
  {
    hide HasAggregate, HasAggregateInPred, PlanHasAggregates, FoundInPart, NamesAggregate;
    match n
    case ExprNode(e) => ExprStep(e);
    case PredNode(p) => PredStep(p);
    case PlanNode(plan) => PlanStep(plan);
  }

  // ---- all steps ----------------------------------------------------------

  lemma {:induction false} LedIsFound(path: seq<Node>, n: Node)
    requires Leads(path, n)
    ensures Found(n)
    decreases |path|
  {
    hide IsPart, Found, FoundInPart, IsAggregateCall;
    if |path| > 1 {
      var rest := path[1..];
      assert forall i :: 0 < i < |rest| ==> rest[i] == path[i + 1] && rest[i - 1] == path[i];
      assert Leads(rest, path[1]);
      LedIsFound(rest, path[1]);
      assert IsPart(path[1], path[0]);
      Part(path[1], n);
    }
    Step(n);
  }

  lemma AggregatesThrough(m: Node, n: Node)
    requires IsPart(m, n) && Aggregates(m)
    ensures Aggregates(n)
  {
    hide IsPart, IsAggregateCall;
    var path :| Leads(path, m);
    var longer := [n] + path;
    forall i | 0 < i < |longer| ensures IsPart(longer[i], longer[i - 1]) {
      if i > 1 { assert longer[i] == path[i - 1] && longer[i - 1] == path[i - 2]; }
    }
    assert Leads(longer, n);
  }

  lemma CallAggregates(n: Node)
    requires IsAggregateCall(n)
    ensures Aggregates(n)
  {
    hide IsAggregateCall;
    assert Leads([n], n);
  }

  lemma {:induction false} FoundInExpr(e: Expression)
    requires HasAggregate(e)
    ensures Aggregates(ExprNode(e))
    decreases e
  {
    hide HasAggregate, Aggregates, IsAggregateCall;
    ExprStep(e);
    if IsAggregateCall(ExprNode(e)) {
      CallAggregates(ExprNode(e));
    } else {
      var m :| IsPart(m, ExprNode(e)) && Found(m);
      PartIsSmaller(m.e, e);
      FoundInExpr(m.e);
      AggregatesThrough(m, ExprNode(e));
    }
  }

  lemma PartIsSmaller(m: Expression, e: Expression)
    requires IsPartOfExpr(m, e)
    ensures e decreases to m
  {
  }

  lemma {:induction false} FoundInPred(p: Predicate)
    requires HasAggregateInPred(p)
    ensures Aggregates(PredNode(p))
    decreases p
  {
    hide HasAggregate, HasAggregateInPred, PlanHasAggregates, Aggregates;
    PredStep(p);
    var m :| IsPart(m, PredNode(p)) && Found(m);
    match m {
      case ExprNode(e) => FoundInExpr(e);
      case PredNode(q) => FoundInPred(q);
      case PlanNode(plan) => FoundInPlan(plan);
    }
    AggregatesThrough(m, PredNode(p));
  }

  lemma {:induction false} FoundInPlan(plan: QueryPlan)
    requires PlanHasAggregates(plan)
    ensures Aggregates(PlanNode(plan))
    decreases plan
  {
    hide HasAggregate, HasAggregateInPred, PlanHasAggregates, Aggregates;
    PlanStep(plan);
    var m :| IsPart(m, PlanNode(plan)) && Found(m);
    match m {
      case ExprNode(e) => FoundInExpr(e);
      case PredNode(p) => FoundInPred(p);
    }
    AggregatesThrough(m, PlanNode(plan));
  }

  /** An expression, predicate or plan aggregates if and only if such a chain leads to an aggregate call. */
  lemma AggregatesIff(n: Node)
    ensures Found(n) <==> Aggregates(n)
  {
    hide HasAggregate, HasAggregateInPred, PlanHasAggregates, Leads;
    if Found(n) {
      match n
      case ExprNode(e) => FoundInExpr(e);
      case PredNode(p) => FoundInPred(p);
      case PlanNode(plan) => FoundInPlan(plan);
    }
    if Aggregates(n) {
      var path :| Leads(path, n);
      LedIsFound(path, n);
    }
  }

  // ---- what the repair achieves -------------------------------------------

  /** Projection `p` calls for the GROUP BY entry `e`: its column, or its expression if that does not aggregate. */
  ghost predicate CallsFor(p: Projection, e: Expression) {
    || (p.Column? && e == ColumnRef(p.table, p.column))
    || (p.Expr? && e == p.expression && !Aggregates(ExprNode(e)))
  }

  lemma EntryIff(p: Projection, e: Expression)
    ensures Entry(p) == Some(e) <==> CallsFor(p, e)
  {
    hide Aggregates, HasAggregate;
    AggregatesIff(ExprNode(e));
  }

  ghost predicate SelectCallsFor(plan: QueryPlan, e: Expression) {
    exists i :: 0 <= i < |plan.select| && CallsFor(plan.select[i], e)
  }

  /** Projection `i` is the first to call for `e`. */
  ghost predicate IsFirstToCall(plan: QueryPlan, e: Expression, i: nat) {
    && i < |plan.select| && CallsFor(plan.select[i], e)
    && forall k :: 0 <= k < i ==> !CallsFor(plan.select[k], e)
  }

  /**
   GROUP BY after the repair, in terms of the plan alone: without an aggregate there is none; with
   one its literals go, the other entries stay in place, and every entry SELECT calls for is there.
   */
  lemma RegroupedIs(plan: QueryPlan)
    ensures
      var before, after := plan.groupBy.Items(), Regrouped(plan).groupBy;
      && (!Aggregates(PlanNode(plan)) ==> after == Absent)
      && (Aggregates(PlanNode(plan)) ==>
            && NonLiterals(before) <= after.Items()
            && (forall e :: e in after.Items() <==> (e in before && !e.Literal?) || SelectCallsFor(plan, e)))
  {
    hide Aggregates, PlanHasAggregates, HasAggregate, CallsFor, Entry, NonLiterals, Required, AppendMissing, Regrouped;
    RegroupedItems(plan);
    AbsentIff(plan);
    AggregatesIff(PlanNode(plan));
    forall p, e ensures Entry(p) == Some(e) <==> CallsFor(p, e) { EntryIff(p, e); }
    NonLiteralsKeep(plan.groupBy.Items());
    RequiredAreEntries(plan.select);
    AppendedEntries(NonLiterals(plan.groupBy.Items()), Required(plan.select));
  }

  /** Filtering out literals takes a list apart at any point, entry by entry. */
  lemma {:induction false} NonLiteralsOfConcat(a: seq<Expression>, b: seq<Expression>)
    ensures NonLiterals(a + b) == NonLiterals(a) + NonLiterals(b)
  {
    hide NonLiterals;
    if b == [] {
      assert a + b == a;
      NonLiteralsKeep(b);
    } else {
      var n := |b| - 1;
      NonLiteralsOfConcat(a, b[..n]);
      NonLiteralsOfMore(a + b[..n], b[n]);
      NonLiteralsOfMore(b[..n], b[n]);
      assert a + b[..n] + [b[n]] == a + b && b[..n] + [b[n]] == b;
    }
  }

  lemma NonLiteralsOfMore(a: seq<Expression>, e: Expression)
    ensures NonLiterals(a + [e]) == NonLiterals(a) + if e.Literal? then [] else [e]
  {
    assert (a + [e])[..|a|] == a;
  }

  predicate IsFirstEntry(ps: seq<Projection>, e: Expression, j: nat) {
    j < |ps| && Entry(ps[j]) == Some(e) && forall k :: 0 <= k < j ==> Entry(ps[k]) != Some(e)
  }

  /** The entries SELECT calls for are listed in the order in which they are first called for. */
  lemma {:induction false} RequiredInOrder(ps: seq<Projection>, a: nat, b: nat, i: nat, j: nat)
    requires a < b < |Required(ps)|
    requires IsFirstEntry(ps, Required(ps)[a], i) && IsFirstEntry(ps, Required(ps)[b], j)
    ensures i < j
  {
    hide Entry;
    var n := |ps| - 1;
    var front := ps[..n];
    RequiredAreEntries(front);
    assert Required(front)[a] in Required(front);
    var k :| 0 <= k < |front| && Entry(front[k]) == Some(Required(front)[a]);
    assert ps[k] == front[k] && i <= k;
    assert IsFirstEntry(front, Required(front)[a], i);
    if b < |Required(front)| {
      assert Required(front)[b] in Required(front);
      var m :| 0 <= m < |front| && Entry(front[m]) == Some(Required(front)[b]);
      assert ps[m] == front[m] && j <= m;
      assert IsFirstEntry(front, Required(front)[b], j);
      RequiredInOrder(front, a, b, i, j);
    } else {
      assert Required(ps)[b] !in Required(front);
      assert forall m :: 0 <= m < n ==> front[m] == ps[m];
    }
  }

  /** What is appended keeps the order of the entries called for. */
  lemma {:induction false} AppendedInOrder(es: seq<Expression>, required: seq<Expression>, a: nat, b: nat)
    returns (x: nat, y: nat)
    requires |es| <= a < b < |AppendMissing(es, required)|
    ensures x < y < |required|
    ensures required[x] == AppendMissing(es, required)[a] && required[y] == AppendMissing(es, required)[b]
  {
    var n := |required| - 1;
    var front := required[..n];
    AppendedEntries(es, front);
    if b < |AppendMissing(es, front)| {
      x, y := AppendedInOrder(es, front, a, b);
    } else {
      y := n;
      x := AppendedFrom(es, front, a);
    }
  }

  lemma {:induction false} AppendedFrom(es: seq<Expression>, required: seq<Expression>, a: nat) returns (x: nat)
    requires |es| <= a < |AppendMissing(es, required)|
    ensures x < |required| && required[x] == AppendMissing(es, required)[a]
  {
    var n := |required| - 1;
    if a < |AppendMissing(es, required[..n])| {
      x := AppendedFrom(es, required[..n], a);
    } else {
      x := n;
    }
  }

  lemma RegroupedItems(plan: QueryPlan)
    ensures Regrouped(plan).groupBy.Items() ==
      if PlanHasAggregates(plan) then AppendMissing(NonLiterals(plan.groupBy.Items()), Required(plan.select)) else []
  {
    hide PlanHasAggregates, NonLiterals, Required;
    assert NonLiterals([]) == [] by { NonLiteralsKeep([]); }
  }

  lemma AbsentIff(plan: QueryPlan)
    ensures !PlanHasAggregates(plan) ==> Regrouped(plan).groupBy == Absent
  {
    hide PlanHasAggregates;
  }

  /** The entries the repair adds follow the order in which SELECT first calls for them. */
  lemma AddedInSelectOrder(plan: QueryPlan, a: nat, b: nat, i: nat, j: nat)
    requires |NonLiterals(plan.groupBy.Items())| <= a < b < |Regrouped(plan).groupBy.Items()|
    requires IsFirstToCall(plan, Regrouped(plan).groupBy.items[a], i)
    requires IsFirstToCall(plan, Regrouped(plan).groupBy.items[b], j)
    ensures i < j
  {
    hide Aggregates, PlanHasAggregates, HasAggregate, CallsFor, Entry, NonLiterals, Required, AppendMissing;
    RegroupedItems(plan);
    var after := Regrouped(plan).groupBy.items;
    var x, y := AppendedInOrder(NonLiterals(plan.groupBy.Items()), Required(plan.select), a, b);
    forall p, e ensures Entry(p) == Some(e) <==> CallsFor(p, e) { EntryIff(p, e); }
    assert IsFirstEntry(plan.select, after[a], i) && IsFirstEntry(plan.select, after[b], j);
    RequiredInOrder(plan.select, x, y, i, j);
  }

  // ---- CTEs ---------------------------------------------------------------

  /** GROUP BY obeys the grouping rule here and in every CTE, as deep as the repair goes. */
  ghost predicate GroupedThroughout(plan: QueryPlan)
    decreases plan
  {
    && (!Aggregates(PlanNode(plan)) ==> plan.groupBy == Absent)
    && (Aggregates(PlanNode(plan)) ==> forall e :: SelectCallsFor(plan, e) ==> e in plan.groupBy.Items())
    && (Aggregates(PlanNode(plan)) && (exists e :: SelectCallsFor(plan, e)) && plan.ctes.Given? ==>
          forall i :: 0 <= i < |plan.ctes.items| ==> GroupedThroughout(plan.ctes.items[i].query))
  }

  lemma {:induction false} RepairGroupsThroughout(plan: QueryPlan)
    ensures GroupedThroughout(Regrouped(plan))
    decreases plan
  {
    hide Aggregates, PlanHasAggregates, HasAggregate, CallsFor, Entry, NonLiterals, AppendMissing, Required;
    var after := Regrouped(plan);
    RegroupedIs(plan);
    AggregatesIff(PlanNode(plan));
    AggregatesIff(PlanNode(after));
    AggregatesDependOn(plan, after);
    assert after.select == plan.select;
    forall e ensures SelectCallsFor(after, e) <==> SelectCallsFor(plan, e) {}
    if Aggregates(PlanNode(plan)) && (exists e :: SelectCallsFor(plan, e)) && plan.ctes.Given? {
      SomethingRequired(plan);
      forall i | 0 <= i < |plan.ctes.items| ensures GroupedThroughout(after.ctes.items[i].query) {
        assert plan.ctes decreases to plan.ctes.items[i];
        RepairGroupsThroughout(plan.ctes.items[i].query);
      }
    }
  }

  lemma SomethingRequired(plan: QueryPlan)
    requires exists e :: SelectCallsFor(plan, e)
    ensures Required(plan.select) != []
  {
    hide Aggregates, HasAggregate, CallsFor, Entry;
    var e :| SelectCallsFor(plan, e);
    var i :| 0 <= i < |plan.select| && CallsFor(plan.select[i], e);
    EntryIff(plan.select[i], e);
    RequiredAreEntries(plan.select);
  }
}
