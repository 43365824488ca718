/** GROUP BY repair (crates/vlorql-core/src/fix/group_by.rs). */
module GroupBy {
  import opened Prelude
  import opened Ast
  import opened Place

  // ---- aggregates ---------------------------------------------------------

  function Lower(c: char): char {
    if 'A' <= c <= 'Z' then c + 32 as char else c
  }

  /** No character outside ASCII lower-cases to a letter of these names. */
  predicate IsAggregateName(name: string) {
    var lower := seq(|name|, i requires 0 <= i < |name| => Lower(name[i]));
    lower in ["sum", "count", "avg", "min", "max"]
  }

  predicate HasAggregate(e: Expression)
    decreases e, 0
  {
    match e
    case FunctionCall(name, args, _) => IsAggregateName(name) || exists i :: 0 <= i < |args| && HasAggregate(args[i])
    case BinaryOp(left, _, right) => HasAggregate(left) || HasAggregate(right)
    case Case(operand, whenThens, elseResult) =>
      || HasAggregateOptional(operand)
      || (exists i :: 0 <= i < |whenThens| && HasAggregateBranch(whenThens[i]))
      || HasAggregateOptional(elseResult)
    case SubQuery(_) | WindowFunction(_, _, _, _) | Literal(_, _) | ColumnRef(_, _) | Star => false
  }

  predicate HasAggregateOptional(e: Option<Expression>)
    decreases e, 1
  {
    e.Some? && HasAggregate(e.value)
  }

  predicate HasAggregateBranch(w: WhenThen)
    decreases w, 1
  {
    HasAggregate(w.when) || HasAggregate(w.then_)
  }

  predicate HasAggregateInPred(p: Predicate)
    decreases p, 0
  {
    match p
    case Comparison(left, _, right) => HasAggregate(left) || HasAggregate(right)
    case And(l, r) => HasAggregateInPred(l) || HasAggregateInPred(r)
    case Or(l, r) => HasAggregateInPred(l) || HasAggregateInPred(r)
    case Not(child) => HasAggregateInPred(child)
    case Between(expr, low, high) => HasAggregate(expr) || HasAggregate(low) || HasAggregate(high)
    case In(expr, Query(query)) => HasAggregate(expr) || PlanHasAggregates(query)
    case In(expr, Values(_)) => HasAggregate(expr)
    case Like(expr, _) => HasAggregate(expr)
    case IsNull(expr) => HasAggregate(expr)
    case Exists(query) => PlanHasAggregates(query)
    case True | False => false
  }

  predicate HasAggregateInHaving(p: Option<Predicate>)
    decreases p, 1
  {
    p.Some? && HasAggregateInPred(p.value)
  }

  predicate PlanHasAggregates(plan: QueryPlan)
    decreases plan, 1
  {
    || (exists i :: 0 <= i < |plan.select| && plan.select[i].Expr? && HasAggregate(plan.select[i].expression))
    || HasAggregateInHaving(plan.having)
  }

  // ---- what GROUP BY must contain -----------------------------------------

  /** The GROUP BY entry a projection calls for, if it is not aggregated and not a star. */
  function Entry(p: Projection): Option<Expression> {
    match p
    case Column(table, column, _) => Some(ColumnRef(table, column))
    case Expr(e, _) => if HasAggregate(e) then None else Some(e)
    case AllColumns(_) => None
  }

  function AddNew(es: seq<Expression>, e: Option<Expression>): seq<Expression> {
    if e.Some? && e.value !in es then es + [e.value] else es
  }

  /** The entries called for, each once, in SELECT order. */
  function Required(ps: seq<Projection>): seq<Expression> {
    if ps == [] then [] else AddNew(Required(ps[..|ps| - 1]), Entry(ps[|ps| - 1]))
  }

  function NonLiterals(es: seq<Expression>): seq<Expression> {
    if es == [] then []
    else NonLiterals(es[..|es| - 1]) + (if es[|es| - 1].Literal? then [] else [es[|es| - 1]])
  }

  function AppendMissing(es: seq<Expression>, required: seq<Expression>): seq<Expression> {
    if required == [] then es
    else AddNew(AppendMissing(es, required[..|required| - 1]), Some(required[|required| - 1]))
  }

  function Cleaned(c: Clause<Expression>): Clause<Expression> {
    if c.Given? then Given(NonLiterals(c.items)) else Absent
  }

  /** The repaired plan. CTEs are visited only when something is required here. */
  function Regrouped(plan: QueryPlan): QueryPlan
    decreases plan, 0
  {
    var required := Required(plan.select);
    if !PlanHasAggregates(plan) then plan.(groupBy := Absent)
    else if required == [] then plan.(groupBy := Cleaned(plan.groupBy))
    else plan.(groupBy := Given(AppendMissing(Cleaned(plan.groupBy).Items(), required)),
               ctes := RegroupedCtes(plan.ctes))
  }

  function RegroupedCtes(c: Clause<CommonTableExpression>): Clause<CommonTableExpression>
    decreases c, 1
  {
    match c
    case Absent => Absent
    case Given(cs) =>
      Given(seq(|cs|, i requires 0 <= i < |cs| => cs[i].(query := Regrouped(cs[i].query))))
  }

  /** The changed flag. It also goes up when a literal is removed and added back. */
  predicate Raises(plan: QueryPlan)
    decreases plan, 0
  {
    var required := Required(plan.select);
    var cleaned := Cleaned(plan.groupBy);
    if !PlanHasAggregates(plan) then plan.groupBy.Given?
    else if required == [] then cleaned != plan.groupBy
    else
      || cleaned != plan.groupBy || plan.groupBy.Absent?
      || AppendMissing(cleaned.Items(), required) != cleaned.Items()
      || CtesRaise(plan.ctes)
  }

  predicate CtesRaise(c: Clause<CommonTableExpression>)
    decreases c, 1
  {
    c.Given? && exists i :: 0 <= i < |c.items| && Raises(c.items[i].query)
  }

  // ---- the repair ---------------------------------------------------------

  method CollectNonAggregatedColumns(plan: QueryPlan) returns (cols: seq<Expression>)
    ensures cols == Required(plan.select)
  {
    cols := [];
    for i := 0 to |plan.select|
      invariant cols == Required(plan.select[..i])
    {
      assert plan.select[..i + 1][..i] == plan.select[..i];
      var entry := Entry(plan.select[i]);
      if entry.Some? && entry.value !in cols { cols := cols + [entry.value]; }
    }
    assert plan.select[..|plan.select|] == plan.select;
  }

  method RetainNonLiterals(es: seq<Expression>) returns (kept: seq<Expression>)
    ensures kept == NonLiterals(es)
  {
    kept := [];
    for i := 0 to |es|
      invariant kept == NonLiterals(es[..i])
    {
      assert es[..i + 1][..i] == es[..i];
      if !es[i].Literal? { kept := kept + [es[i]]; }
    }
    assert es[..|es|] == es;
  }

  /** Pushes every required entry that is not there yet. */
  method PushMissing(es: seq<Expression>, required: seq<Expression>) returns (grown: seq<Expression>, pushed: bool)
    ensures grown == AppendMissing(es, required)
    ensures pushed <==> grown != es
  {
    grown, pushed := es, false;
    for i := 0 to |required|
      invariant grown == AppendMissing(es, required[..i])
      invariant |es| <= |grown| && (pushed <==> |grown| > |es|)
      invariant !pushed ==> grown == es
    {
      assert required[..i + 1][..i] == required[..i];
      if required[i] !in grown { grown, pushed := grown + [required[i]], true; }
    }
    assert required[..|required|] == required;
  }

  method FixGroupBy(cell: PlanCell) returns (changed: bool)
    modifies cell
    ensures cell.plan == Regrouped(old(cell.plan))
    ensures changed <==> Raises(old(cell.plan))
    decreases cell.plan, 0
  {
    hide PlanHasAggregates;
    var plan := cell.plan;
    changed := false;
    if !PlanHasAggregates(plan) {
      changed := plan.groupBy.Given?;
      cell.plan := plan.(groupBy := Absent);
      return;
    }
    var groupBy := plan.groupBy;
    if groupBy.Given? {
      var kept := RetainNonLiterals(groupBy.items);
      NonLiteralsKeep(groupBy.items);
      changed := |kept| != |groupBy.items|;
      groupBy := Given(kept);
    }
    cell.plan := plan.(groupBy := groupBy);
    var required := CollectNonAggregatedColumns(plan);
    if required == [] { return; }
    if groupBy.Absent? {
      groupBy, changed := Given([]), true;
    }
    var grown, pushed := PushMissing(groupBy.items, required);
    var ctes, changedCtes := FixCtes(plan.ctes);
    cell.plan := plan.(groupBy := Given(grown), ctes := ctes);
    changed := changed || pushed || changedCtes;
  }

  method FixCtes(c: Clause<CommonTableExpression>) returns (fixed: Clause<CommonTableExpression>, changed: bool)
    ensures fixed == RegroupedCtes(c) && (changed <==> CtesRaise(c))
    decreases c, 1
  {
    if c.Absent? { return Absent, false; }
    var cs := c.items;
    var ds := [];
    changed := false;
    for i := 0 to |cs|
      invariant ds == RegroupedCtes(c).items[..i]
      invariant changed <==> exists k :: 0 <= k < i && Raises(cs[k].query)
    {
      assert c decreases to cs[i];
      var cell := new PlanCell(cs[i].query);
      var d := FixGroupBy(cell);
      ds, changed := ds + [cs[i].(query := cell.plan)], changed || d;
    }
    fixed := Given(ds);
  }

  // ---- lists --------------------------------------------------------------

  lemma {:induction false} NonLiteralsKeep(es: seq<Expression>)
    ensures |NonLiterals(es)| <= |es|
    ensures |NonLiterals(es)| == |es| ==> NonLiterals(es) == es
    ensures forall e :: e in NonLiterals(es) <==> e in es && !e.Literal?
    ensures (forall e :: e in es ==> !e.Literal?) ==> NonLiterals(es) == es
  {
    if es != [] {
      var front := es[..|es| - 1];
      NonLiteralsKeep(front);
      assert es == front + [es[|es| - 1]];
    }
  }

  lemma {:induction false} RequiredAreEntries(ps: seq<Projection>)
    ensures forall e :: e in Required(ps) <==> exists i :: 0 <= i < |ps| && Entry(ps[i]) == Some(e)
  {
    if ps != [] {
      var front := ps[..|ps| - 1];
      RequiredAreEntries(front);
      forall e ensures e in Required(ps) <==> exists i :: 0 <= i < |ps| && Entry(ps[i]) == Some(e) {
        if e in Required(front) {
          var i :| 0 <= i < |front| && Entry(front[i]) == Some(e);
          assert Entry(ps[i]) == Some(e);
        }
      }
    }
  }

  /** Appending adds only what was missing, once each, after everything that was there. */
  lemma {:induction false} AppendedEntries(es: seq<Expression>, required: seq<Expression>)
    ensures es <= AppendMissing(es, required)
    ensures forall e :: e in AppendMissing(es, required) <==> e in es || e in required
    ensures forall i, j :: |es| <= j < |AppendMissing(es, required)| && 0 <= i < j ==>
              AppendMissing(es, required)[i] != AppendMissing(es, required)[j]
    ensures AppendMissing(es, required) == es <==> forall e :: e in required ==> e in es
  {
    if required != [] {
      var front := required[..|required| - 1];
      AppendedEntries(es, front);
      assert required == front + [required[|required| - 1]];
    }
  }

  // ---- main results -------------------------------------------------------

  /**
   With an aggregate, GROUP BY afterwards is the earlier non-literal entries in order,
   followed by the other entries the projections call for, each once.
   */
  lemma RepairedGroupBy(plan: QueryPlan)
    requires PlanHasAggregates(plan) && Required(plan.select) != []
    ensures var before, after := NonLiterals(plan.groupBy.Items()), Regrouped(plan).groupBy.Items();
            && Regrouped(plan).groupBy.Given?
            && before <= after
            && (forall e :: e in after <==>
                  (e in plan.groupBy.Items() && !e.Literal?)
                  || exists i :: 0 <= i < |plan.select| && Entry(plan.select[i]) == Some(e))
            && forall i, j :: |before| <= j < |after| && 0 <= i < j ==> after[i] != after[j]
  {
    hide PlanHasAggregates, Entry;
    var before := NonLiterals(plan.groupBy.Items());
    NonLiteralsKeep(plan.groupBy.Items());
    RequiredAreEntries(plan.select);
    AppendedEntries(before, Required(plan.select));
  }

  /** SQL's grouping rule, as far as the repair can see it. */
  predicate IsGrouped(plan: QueryPlan) {
    if PlanHasAggregates(plan) then
      forall i :: 0 <= i < |plan.select| && Entry(plan.select[i]).Some? ==>
        plan.groupBy.Given? && Entry(plan.select[i]).value in plan.groupBy.items
    else plan.groupBy.Absent?
  }

  /**
   Every repaired plan obeys the rule, and has a literal in GROUP BY only where one is
   projected; nothing but GROUP BY and the CTEs changes.
   */
  lemma RepairedIsGrouped(plan: QueryPlan)
    ensures IsGrouped(Regrouped(plan))
    ensures forall e :: e in Regrouped(plan).groupBy.Items() && e.Literal? ==>
              exists i :: 0 <= i < |plan.select| && Entry(plan.select[i]) == Some(e)
    ensures Regrouped(plan) == plan.(groupBy := Regrouped(plan).groupBy, ctes := Regrouped(plan).ctes)
  {
    hide PlanHasAggregates, Entry, RegroupedCtes, Required, AppendMissing, NonLiterals;
    AggregatesDependOn(plan, Regrouped(plan));
    RequiredAreEntries(plan.select);
    NonLiteralsKeep(plan.groupBy.Items());
    AppendedEntries(NonLiterals(plan.groupBy.Items()), Required(plan.select));
    forall i | 0 <= i < |plan.select| && Entry(plan.select[i]).Some?
      ensures Entry(plan.select[i]).value in Required(plan.select)
    {
      assert Entry(plan.select[i]) == Some(Entry(plan.select[i]).value);
    }
  }

  /** A bare literal is projected, here or in a CTE that the repair visits. */
  predicate ProjectsLiteral(plan: QueryPlan)
    decreases plan, 0
  {
    PlanHasAggregates(plan)
    && ((exists e :: e in Required(plan.select) && e.Literal?)
        || (Required(plan.select) != [] && CtesProjectLiteral(plan.ctes)))
  }

  predicate CtesProjectLiteral(c: Clause<CommonTableExpression>)
    decreases c, 1
  {
    c.Given? && exists i :: 0 <= i < |c.items| && ProjectsLiteral(c.items[i].query)
  }

  /** A second run raises the flag again exactly when a literal is projected. */
  lemma {:induction false} SecondRunRaisesIff(plan: QueryPlan)
    ensures Raises(Regrouped(plan)) <==> ProjectsLiteral(plan)
    decreases plan, 0
  {
    hide PlanHasAggregates, Raises, Regrouped, ProjectsLiteral, RegroupedCtes, CtesRaise, CtesProjectLiteral;
    CtesSecondRunRaisesIff(plan.ctes);
    SecondLevelRaisesIff(plan);
  }

  lemma AggregatesDependOn(p: QueryPlan, q: QueryPlan)
    requires q.select == p.select && q.having == p.having
    ensures PlanHasAggregates(q) == PlanHasAggregates(p)
  {
    hide HasAggregate, HasAggregateInPred;
  }

  /** Cleaning and completing a completed list again changes something only for a required literal. */
  lemma CompletedListIsStableIff(before: seq<Expression>, required: seq<Expression>)
    requires forall e :: e in before ==> !e.Literal?
    ensures var after := AppendMissing(before, required);
            && (NonLiterals(after) == after <==> forall e :: e in required ==> !e.Literal?)
            && (NonLiterals(after) == after ==> AppendMissing(after, required) == after)
  {
    var after := AppendMissing(before, required);
    AppendedEntries(before, required);
    NonLiteralsKeep(after);
    AppendedEntries(after, required);
  }

  lemma SecondLevelRaisesIff(plan: QueryPlan)
    requires CtesRaise(RegroupedCtes(plan.ctes)) <==> CtesProjectLiteral(plan.ctes)
    ensures Raises(Regrouped(plan)) <==> ProjectsLiteral(plan)
  {
    hide CtesRaise, RegroupedCtes, CtesProjectLiteral, PlanHasAggregates, NonLiterals, AppendMissing, Required;
    var before := NonLiterals(plan.groupBy.Items());
    NonLiteralsKeep(plan.groupBy.Items());
    NonLiteralsKeep(before);
    AggregatesDependOn(plan, Regrouped(plan));
    CompletedListIsStableIff(before, Required(plan.select));
    assert NonLiterals([]) == [] by { NonLiteralsKeep([]); }
  }

  lemma {:induction false} CtesSecondRunRaisesIff(c: Clause<CommonTableExpression>)
    ensures CtesRaise(RegroupedCtes(c)) <==> CtesProjectLiteral(c)
    decreases c, 1
  {
    if c.Given? {
      var ds := RegroupedCtes(c).items;
      forall i | 0 <= i < |c.items|
        ensures Raises(ds[i].query) <==> ProjectsLiteral(c.items[i].query)
      {
        assert c decreases to c.items[i];
        SecondRunRaisesIff(c.items[i].query);
      }
      hide Raises, ProjectsLiteral;
    }
  }

  /** A run that does not raise the flag changes nothing. */
  lemma {:induction false} QuietRunKeepsPlan(plan: QueryPlan)
    requires !Raises(plan)
    ensures Regrouped(plan) == plan
    decreases plan, 0
  {
    if PlanHasAggregates(plan) && Required(plan.select) != [] {
      QuietRunKeepsCtes(plan.ctes);
    }
  }

  lemma {:induction false} QuietRunKeepsCtes(c: Clause<CommonTableExpression>)
    requires !CtesRaise(c)
    ensures RegroupedCtes(c) == c
    decreases c, 1
  {
    if c.Given? {
      forall i | 0 <= i < |c.items| ensures Regrouped(c.items[i].query) == c.items[i].query {
        assert c decreases to c.items[i];
        QuietRunKeepsPlan(c.items[i].query);
      }
      assert RegroupedCtes(c).items == c.items;
    }
  }

  /** Where no literal is projected, the repair is idempotent and leaves no literal in GROUP BY. */
  lemma RepairIsIdempotent(plan: QueryPlan)
    requires !ProjectsLiteral(plan)
    ensures Regrouped(Regrouped(plan)) == Regrouped(plan)
    ensures forall e :: e in Regrouped(plan).groupBy.Items() ==> !e.Literal?
  {
    hide HasAggregate, HasAggregateInPred;
    SecondRunRaisesIff(plan);
    QuietRunKeepsPlan(Regrouped(plan));
    NonLiteralsKeep(plan.groupBy.Items());
    AppendedEntries(NonLiterals(plan.groupBy.Items()), Required(plan.select));
  }
}
