/** Repeating the GROUP BY repair: what a second run changes, and that a third changes nothing. */
module GroupByRuns {
  import opened Prelude
  import opened Json
  import opened Ast
  import opened GroupBy

  ghost predicate Distinct(es: seq<Expression>) {
    forall i, j :: 0 <= i < j < |es| ==> es[i] != es[j]
  }

  ghost predicate NoLiterals(es: seq<Expression>) {
    forall i :: 0 <= i < |es| ==> !es[i].Literal?
  }

  // ---- lists --------------------------------------------------------------

  function Literals(es: seq<Expression>): seq<Expression> {
    if es == [] then []
    else Literals(es[..|es| - 1]) + (if es[|es| - 1].Literal? then [es[|es| - 1]] else [])
  }

  lemma {:induction false} LiteralsAre(es: seq<Expression>)
    ensures forall e :: e in Literals(es) <==> e in es && e.Literal?
  {
    if es != [] {
      LiteralsAre(es[..|es| - 1]);
      assert es == es[..|es| - 1] + [es[|es| - 1]];
    }
  }

  lemma {:induction false} RequiredIsDistinct(ps: seq<Projection>)
    ensures Distinct(Required(ps))
  {
    hide GroupBy.Entry;
    if ps != [] {
      RequiredIsDistinct(ps[..|ps| - 1]);
    }
  }

  lemma LastAppended(es: seq<Expression>, e: Expression)
    ensures NonLiterals(es + [e]) == if e.Literal? then NonLiterals(es) else NonLiterals(es) + [e]
    ensures Literals(es + [e]) == if e.Literal? then Literals(es) + [e] else Literals(es)
  {
    assert (es + [e])[..|es + [e]| - 1] == es;
  }

  lemma NonLiteralsHaveNone(es: seq<Expression>)
    ensures NoLiterals(NonLiterals(es))
  {
    NonLiteralsKeep(es);
    forall i | 0 <= i < |NonLiterals(es)| ensures !NonLiterals(es)[i].Literal? {
      assert NonLiterals(es)[i] in NonLiterals(es);
    }
  }

  lemma KeptWhenNone(es: seq<Expression>)
    requires NoLiterals(es)
    ensures NonLiterals(es) == es
  {
    NonLiteralsKeep(es);
  }

  lemma EmptyLists(es: seq<Expression>)
    ensures AppendMissing(es, []) == es && NonLiterals([]) == [] && Literals([]) == []
  {
  }

  lemma AppendLast(es: seq<Expression>, required: seq<Expression>, e: Expression)
    ensures AppendMissing(es, required + [e]) == AddNew(AppendMissing(es, required), Some(e))
  {
    assert (required + [e])[..|required + [e]| - 1] == required;
  }

  /** Cleaning a completed list is completing with the non-literals. */
  lemma {:induction false} CleanedCompletion(es: seq<Expression>, required: seq<Expression>)
    requires NoLiterals(es)
    ensures NonLiterals(AppendMissing(es, required)) == AppendMissing(es, NonLiterals(required))
  {
    hide AppendMissing, NonLiterals, Literals;
    if required == [] {
      EmptyLists(es);
      KeptWhenNone(es);
    } else {
      var front, last := required[..|required| - 1], required[|required| - 1];
      assert required == front + [last];
      var grown := AppendMissing(es, front);
      CleanedCompletion(es, front);
      AppendLast(es, front, last);
      AppendLast(es, NonLiterals(front), last);
      LastAppended(grown, last);
      LastAppended(front, last);
      NonLiteralsKeep(grown);
    }
  }

  /** A list that has the non-literals is completed by the literals alone. */
  lemma {:induction false} CompletedByLiterals(es: seq<Expression>, required: seq<Expression>)
    requires forall e :: e in required && !e.Literal? ==> e in es
    ensures AppendMissing(es, required) == AppendMissing(es, Literals(required))
  {
    hide AppendMissing, Literals;
    if required == [] {
      EmptyLists(es);
    } else {
      var front, last := required[..|required| - 1], required[|required| - 1];
      assert required == front + [last];
      CompletedByLiterals(es, front);
      AppendedEntries(es, Literals(front));
      AppendLast(es, front, last);
      AppendLast(es, Literals(front), last);
      LastAppended(front, last);
    }
  }

  /** What one, two and three runs leave of the entries `es` when `required` is called for. */
  function Once(es: seq<Expression>, required: seq<Expression>): seq<Expression> {
    AppendMissing(NonLiterals(es), required)
  }

  /** A second run moves the literals behind everything else. */
  lemma SecondRunEntries(es: seq<Expression>, required: seq<Expression>)
    ensures Once(Once(es, required), required) ==
      AppendMissing(AppendMissing(NonLiterals(es), NonLiterals(required)), Literals(required))
  {
    hide AppendMissing, NonLiterals, Literals;
    NonLiteralsHaveNone(es);
    CleanedCompletion(NonLiterals(es), required);
    NonLiteralsKeep(required);
    AppendedEntries(NonLiterals(es), NonLiterals(required));
    CompletedByLiterals(AppendMissing(NonLiterals(es), NonLiterals(required)), required);
  }

  lemma ThirdRunEntries(es: seq<Expression>, required: seq<Expression>)
    ensures Once(Once(Once(es, required), required), required) == Once(Once(es, required), required)
  {
    hide AppendMissing, NonLiterals, Literals;
    NonLiteralsHaveNone(es);
    NonLiteralsHaveNone(required);
    CleanedCompletion(NonLiterals(es), required);
    var kept := AppendMissing(NonLiterals(es), NonLiterals(required));
    var once := Once(es, required);
    assert NonLiterals(once) == kept;
    NonLiteralsHaveNone(once);
    CleanedCompletion(kept, required);
    NonLiteralsKeep(required);
    AppendedEntries(NonLiterals(es), NonLiterals(required));
    NothingToAppend(kept, NonLiterals(required));
  }

  lemma NothingToAppend(es: seq<Expression>, required: seq<Expression>)
    requires forall e :: e in required ==> e in es
    ensures AppendMissing(es, required) == es
  {
    AppendedEntries(es, required);
  }

  // ---- when the second run changes nothing --------------------------------

  /** No literal is called for before a non-literal that has yet to be appended. */
  ghost predicate LiteralsComeLast(kept: seq<Expression>, required: seq<Expression>) {
    forall i, j :: 0 <= i < j < |required| && required[i].Literal? && !required[j].Literal? ==> required[j] in kept
  }

  ghost predicate LiteralsAtEnd(es: seq<Expression>) {
    forall i, j :: 0 <= i < j < |es| && es[i].Literal? ==> es[j].Literal?
  }

  lemma {:induction false} AtEndIsPartition(es: seq<Expression>)
    requires LiteralsAtEnd(es)
    ensures es == NonLiterals(es) + Literals(es)
  {
    hide NonLiterals, Literals;
    if es == [] {
      EmptyLists(es);
    } else {
      var front, last := es[..|es| - 1], es[|es| - 1];
      assert es == front + [last];
      AtEndIsPartition(front);
      LastAppended(front, last);
      if !last.Literal? {
        assert NoLiterals(front);
        NoneAmong(front);
      }
    }
  }

  lemma PartitionIsAtEnd(es: seq<Expression>)
    requires es == NonLiterals(es) + Literals(es)
    ensures LiteralsAtEnd(es)
  {
    NonLiteralsHaveNone(es);
    LiteralsAre(es);
    forall i, j | 0 <= i < j < |es| && es[i].Literal?
      ensures es[j].Literal?
    {
      assert i >= |NonLiterals(es)|;
      assert es[j] == Literals(es)[j - |NonLiterals(es)|];
      assert es[j] in Literals(es);
    }
  }

  lemma {:induction false} NoneAmong(es: seq<Expression>)
    requires NoLiterals(es)
    ensures Literals(es) == []
  {
    if es != [] { NoneAmong(es[..|es| - 1]); }
  }

  lemma {:induction false} AppendedLiterals(kept: seq<Expression>, required: seq<Expression>)
    requires NoLiterals(kept)
    ensures Literals(AppendMissing(kept, required)) == AppendMissing([], Literals(required))
    ensures AppendMissing(kept, Literals(required)) == kept + AppendMissing([], Literals(required))
  {
    hide AppendMissing, Literals;
    if required == [] {
      EmptyLists(kept);
      EmptyLists([]);
      NoneAmong(kept);
    } else {
      var front, last := required[..|required| - 1], required[|required| - 1];
      assert required == front + [last];
      AppendedLiterals(kept, front);
      var grown, literals := AppendMissing(kept, front), AppendMissing([], Literals(front));
      LiteralsAre(grown);
      AppendLast(kept, front, last);
      AppendLast([], Literals(front), last);
      AppendLast(kept, Literals(front), last);
      LastAppended(grown, last);
      LastAppended(front, last);
      if last.Literal? {
        assert last !in kept;
        assert (kept + literals) + [last] == kept + (literals + [last]);
      }
    }
  }

  lemma {:induction false} AppendedAtEndIff(kept: seq<Expression>, required: seq<Expression>)
    requires NoLiterals(kept) && Distinct(required)
    ensures LiteralsAtEnd(AppendMissing(kept, required)) <==> LiteralsComeLast(kept, required)
  {
    if required != [] {
      var front, last := required[..|required| - 1], required[|required| - 1];
      assert required == front + [last];
      AppendedAtEndIff(kept, front);
      AppendedEntries(kept, front);
      var grown := AppendMissing(kept, front);
      if last in grown {
        assert last in kept;
        StillLast(kept, front, last);
      } else {
        NewLast(kept, front, grown, last);
      }
    }
  }

  lemma StillLast(kept: seq<Expression>, front: seq<Expression>, last: Expression)
    requires last in kept
    ensures LiteralsComeLast(kept, front + [last]) <==> LiteralsComeLast(kept, front)
  {
    var all := front + [last];
    assert forall i :: 0 <= i < |front| ==> all[i] == front[i];
  }

  lemma NewLast(kept: seq<Expression>, front: seq<Expression>, grown: seq<Expression>, last: Expression)
    requires LiteralsAtEnd(grown) <==> LiteralsComeLast(kept, front)
    requires forall e :: e in grown <==> e in kept || e in front
    requires NoLiterals(kept) && last !in grown
    ensures LiteralsAtEnd(grown + [last]) <==> LiteralsComeLast(kept, front + [last])
  {
    var more, all := grown + [last], front + [last];
    assert forall i :: 0 <= i < |front| ==> all[i] == front[i];
    assert forall i :: 0 <= i < |grown| ==> more[i] == grown[i];
    if LiteralsAtEnd(more) {
      assert LiteralsAtEnd(grown);
      forall i, j | 0 <= i < j < |all| && all[i].Literal? && !all[j].Literal?
        ensures all[j] in kept
      {
        assert all[i] in grown;
        var k :| 0 <= k < |grown| && grown[k] == all[i];
        assert more[k].Literal? && more[|grown|] == last;
      }
    }
    if LiteralsComeLast(kept, all) {
      forall i, j | 0 <= i < j < |all| - 1 && front[i].Literal? && !front[j].Literal?
        ensures front[j] in kept
      {
        assert all[i] == front[i] && all[j] == front[j];
      }
      forall i, j | 0 <= i < j < |more| && more[i].Literal?
        ensures more[j].Literal?
      {
        if j == |grown| { LastIsLiteral(kept, front, grown, last, grown[i]); }
      }
    }
  }

  lemma LastIsLiteral(
    kept: seq<Expression>, front: seq<Expression>, grown: seq<Expression>, last: Expression, e: Expression)
    requires LiteralsComeLast(kept, front + [last])
    requires forall e :: e in grown <==> e in kept || e in front
    requires NoLiterals(kept) && last !in grown && e in grown && e.Literal?
    ensures last.Literal?
  {
    assert e !in kept;
    var k :| 0 <= k < |front| && front[k] == e;
    var all := front + [last];
    assert all[k] == e && all[|front|] == last;
  }

  /** The second run leaves the entries alone if and only if no literal comes before a new non-literal. */
  lemma SecondRunKeepsEntriesIff(es: seq<Expression>, required: seq<Expression>)
    requires Distinct(required)
    ensures Once(Once(es, required), required) == Once(es, required) <==> LiteralsComeLast(NonLiterals(es), required)
  {
    hide AppendMissing, NonLiterals, Literals, LiteralsAtEnd, LiteralsComeLast;
    var kept, once := NonLiterals(es), Once(es, required);
    NonLiteralsHaveNone(es);
    SecondRunEntries(es, required);
    CleanedCompletion(kept, required);
    NonLiteralsHaveNone(once);
    AppendedLiterals(kept, required);
    AppendedLiterals(NonLiterals(once), required);
    if LiteralsAtEnd(once) { AtEndIsPartition(once); }
    if once == NonLiterals(once) + Literals(once) { PartitionIsAtEnd(once); }
    AppendedAtEndIff(kept, required);
  }

  // ---- whole plans --------------------------------------------------------

  /** In every plan the repair visits, no projected literal precedes an entry it must append. */
  ghost predicate Steady(plan: QueryPlan)
    decreases plan, 0
  {
    PlanHasAggregates(plan) && Required(plan.select) != [] ==>
      && LiteralsComeLast(NonLiterals(plan.groupBy.Items()), Required(plan.select))
      && SteadyCtes(plan.ctes)
  }

  ghost predicate SteadyCtes(c: Clause<CommonTableExpression>)
    decreases c, 1
  {
    c.Given? ==> forall i :: 0 <= i < |c.items| ==> Steady(c.items[i].query)
  }

  /** One unfolding of the repair. */
  lemma RegroupedByCases(plan: QueryPlan)
    ensures !PlanHasAggregates(plan) ==> Regrouped(plan) == plan.(groupBy := Absent)
    ensures PlanHasAggregates(plan) && Required(plan.select) == [] ==>
      Regrouped(plan) == plan.(groupBy := Cleaned(plan.groupBy))
    ensures PlanHasAggregates(plan) && Required(plan.select) != [] ==>
      Regrouped(plan) == plan.(
        groupBy := Given(Once(plan.groupBy.Items(), Required(plan.select))), ctes := RegroupedCtes(plan.ctes))
  {
    hide PlanHasAggregates, Required, NonLiterals, AppendMissing, RegroupedCtes;
    assert NonLiterals([]) == [] by { NonLiteralsKeep([]); }
  }

  lemma CleanedTwice(c: Clause<Expression>)
    ensures Cleaned(Cleaned(c)) == Cleaned(c)
  {
    if c.Given? {
      NonLiteralsHaveNone(c.items);
      KeptWhenNone(NonLiterals(c.items));
    }
  }

  /** A second run changes nothing if and only if the plan is steady. */
  lemma {:induction false} RepairIsIdempotentIff(plan: QueryPlan)
    ensures Regrouped(Regrouped(plan)) == Regrouped(plan) <==> Steady(plan)
    decreases plan, 0
  {
    hide PlanHasAggregates, Required, NonLiterals, Regrouped, RegroupedCtes, SteadyCtes, LiteralsComeLast, Once;
    RegroupedByCases(plan);
    RegroupedByCases(Regrouped(plan));
    AggregatesDependOn(plan, Regrouped(plan));
    CleanedTwice(plan.groupBy);
    if PlanHasAggregates(plan) && Required(plan.select) != [] {
      CtesAreIdempotentIff(plan.ctes);
      RequiredIsDistinct(plan.select);
      SecondRunKeepsEntriesIff(plan.groupBy.Items(), Required(plan.select));
    }
  }

  lemma {:induction false} CtesAreIdempotentIff(c: Clause<CommonTableExpression>)
    ensures RegroupedCtes(RegroupedCtes(c)) == RegroupedCtes(c) <==> SteadyCtes(c)
    decreases c, 1
  {
    hide Steady, Regrouped;
    if c.Given? {
      var once, twice := RegroupedCtes(c).items, RegroupedCtes(RegroupedCtes(c)).items;
      forall i | 0 <= i < |c.items|
        ensures once[i] == c.items[i].(query := Regrouped(c.items[i].query))
        ensures twice[i] == once[i].(query := Regrouped(once[i].query))
        ensures twice[i] == once[i] <==> Steady(c.items[i].query)
      {
        assert c decreases to c.items[i];
        RepairIsIdempotentIff(c.items[i].query);
        SameQuery(once[i], Regrouped(once[i].query));
      }
      assert RegroupedCtes(RegroupedCtes(c)) == RegroupedCtes(c) <==> twice == once;
    }
  }

  lemma SameQuery(c: CommonTableExpression, query: QueryPlan)
    ensures c.(query := query) == c <==> query == c.query
  {
  }

  /** A third run never changes anything, whatever is projected. */
  lemma {:induction false} ThirdRunKeepsPlan(plan: QueryPlan)
    ensures Regrouped(Regrouped(Regrouped(plan))) == Regrouped(Regrouped(plan))
    decreases plan, 0
  {
    hide PlanHasAggregates, Required, NonLiterals, Regrouped, RegroupedCtes, Once;
    var once := Regrouped(plan);
    RegroupedByCases(plan);
    RegroupedByCases(once);
    RegroupedByCases(Regrouped(once));
    AggregatesDependOn(plan, once);
    AggregatesDependOn(once, Regrouped(once));
    CleanedTwice(plan.groupBy);
    if PlanHasAggregates(plan) && Required(plan.select) != [] {
      ThirdRunKeepsCtes(plan.ctes);
      ThirdRunEntries(plan.groupBy.Items(), Required(plan.select));
    }
  }

  lemma {:induction false} ThirdRunKeepsCtes(c: Clause<CommonTableExpression>)
    ensures RegroupedCtes(RegroupedCtes(RegroupedCtes(c))) == RegroupedCtes(RegroupedCtes(c))
    decreases c, 1
  {
    hide Regrouped;
    if c.Given? {
      var twice := RegroupedCtes(RegroupedCtes(c)).items;
      var thrice := RegroupedCtes(RegroupedCtes(RegroupedCtes(c))).items;
      forall i | 0 <= i < |c.items| ensures thrice[i] == twice[i] {
        assert c decreases to c.items[i];
        ThirdRunKeepsPlan(c.items[i].query);
      }
      assert thrice == twice;
    }
  }

  // ---- an input -----------------------------------------------------------

  function Sample(one: Expression, a: string): seq<Projection> {
    [Expr(one, None), Column(None, a, None), Expr(FunctionCall("count", [Star], false), None)]
  }

  lemma SampleRequires(one: Expression, a: string)
    requires one.Literal?
    ensures Required(Sample(one, a)) == [one, ColumnRef(None, a)]
  {
    var ps := Sample(one, a);
    var count := FunctionCall("count", [Star], false);
    assert HasAggregate(count) by { CountIsAggregate(); }
    hide HasAggregate;
    assert GroupBy.Entry(ps[0]) == Some(one) by { LiteralIsNoAggregate(one); }
    assert GroupBy.Entry(ps[1]) == Some(ColumnRef(None, a));
    assert GroupBy.Entry(ps[2]) == None;
    hide GroupBy.Entry;
    assert ps[..2][..1] == ps[..1] && ps[..1][..0] == [];
    assert Required(ps[..1]) == [one];
    assert Required(ps[..2]) == [one, ColumnRef(None, a)];
  }

  lemma CountIsAggregate()
    ensures HasAggregate(FunctionCall("count", [Star], false))
  {
    assert IsAggregateName("count") by {
      assert seq(5, i requires 0 <= i < 5 => Lower("count"[i])) == "count";
    }
  }

  lemma LiteralIsNoAggregate(e: Expression)
    requires e.Literal?
    ensures !HasAggregate(e)
  {
  }

  lemma SampleAggregates(plan: QueryPlan, one: Expression, a: string)
    requires plan.select == Sample(one, a)
    ensures PlanHasAggregates(plan)
  {
    CountIsAggregate();
    hide HasAggregate;
    assert plan.select[2].expression == FunctionCall("count", [Star], false);
  }

  /** SELECT 1, a, count(*) groups by [1, a], and by [a, 1] after a second run. */
  lemma LiteralChangesPlace(plan: QueryPlan, one: Expression, a: string)
    requires one.Literal? && plan.select == Sample(one, a) && plan.groupBy == Absent
    ensures Regrouped(plan).groupBy == Given([one, ColumnRef(None, a)])
    ensures Regrouped(Regrouped(plan)).groupBy == Given([ColumnRef(None, a), one])
  {
    hide HasAggregate, PlanHasAggregates, Required, Regrouped, Once;
    var column := ColumnRef(None, a);
    SampleRequires(one, a);
    SampleAggregates(plan, one, a);
    RegroupedByCases(plan);
    AggregatesDependOn(plan, Regrouped(plan));
    RegroupedByCases(Regrouped(plan));
    OnceAndTwice(one, column);
  }

  lemma OnceAndTwice(one: Expression, column: Expression)
    requires one.Literal? && !column.Literal?
    ensures Once([], [one, column]) == [one, column]
    ensures Once([one, column], [one, column]) == [column, one]
  {
    EmptyLists([]);
    LastAppended([], one);
    LastAppended([one], column);
    assert [] + [one] == [one] && [one] + [column] == [one, column];
    assert NonLiterals([one, column]) == [column];
    TwoEntries([], one, column);
    TwoEntries([column], one, column);
  }

  lemma TwoEntries(es: seq<Expression>, e: Expression, f: Expression)
    ensures AppendMissing(es, [e, f]) == AddNew(AddNew(es, Some(e)), Some(f))
  {
    EmptyLists(es);
    AppendLast(es, [], e);
    AppendLast(es, [e], f);
    assert [] + [e] == [e] && [e] + [f] == [e, f];
  }
}
