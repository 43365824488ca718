/**
 What validation does to a plan on the way to execution
 (crates/vlorql-core/src/validate/pipeline.rs, `validate_repairing` and `validate`, and
 `drop_hallucinated_joins` of crates/vlorql-core/src/fix/joins.rs).
 */
module Validation {
  import opened Prelude
  import opened Ast
  import opened Place
  import opened Schema
  import opened Semantics

  // ---- joins to unknown tables --------------------------------------------

  predicate IsKnown(join: JoinClause, schema: Snapshot) {
    join.rightTable.Table? && GetTable(schema, join.rightTable.table).Some?
  }

  /** The joined table is known if and only if some table of the schema has its name. */
  lemma KnownIff(join: JoinClause, schema: Snapshot)
    ensures IsKnown(join, schema) <==>
      join.rightTable.Table? && exists t :: t in schema && t.name == join.rightTable.table
  {
  }

  function KnownJoins(js: seq<JoinClause>, schema: Snapshot): seq<JoinClause> {
    if js == [] then []
    else KnownJoins(js[..|js| - 1], schema) + (if IsKnown(js[|js| - 1], schema) then [js[|js| - 1]] else [])
  }

  /** The plan without joins to unknown tables, and without an empty list of joins. */
  function Dropped(plan: QueryPlan, schema: Snapshot): QueryPlan {
    var known := KnownJoins(plan.joins.Items(), schema);
    plan.(joins := if known == [] then Absent else Given(known))
  }

  predicate NamedJoins(plan: QueryPlan) {
    forall i :: 0 <= i < |plan.joins.Items()| ==> plan.joins.Items()[i].rightTable.Table?
  }

  /** The flag tells of removed joins only; an empty list of joins disappears in silence. */
  method DropHallucinatedJoins(cell: PlanCell, schema: Snapshot) returns (removed: bool)
    requires NamedJoins(cell.plan)
    modifies cell
    ensures cell.plan == Dropped(old(cell.plan), schema)
    ensures removed <==> exists join :: join in old(cell.plan).joins.Items() && !IsKnown(join, schema)
  {
    var plan := cell.plan;
    if plan.joins.Absent? { return false; }
    var js := plan.joins.items;
    assert plan.joins.Items() == js;
    var kept := [];
    for i := 0 to |js|
      invariant kept == KnownJoins(js[..i], schema)
    {
      assert js[..i + 1][..i] == js[..i];
      assert plan.joins.Items()[i].rightTable.Table?;
      if GetTable(schema, js[i].rightTable.table).Some? { kept := kept + [js[i]]; }
    }
    assert js[..|js|] == js;
    KnownAreKept(js, schema);
    removed := |kept| != |js|;
    cell.plan := plan.(joins := if kept == [] then Absent else Given(kept));
  }

  lemma {:induction false} KnownAreKept(js: seq<JoinClause>, schema: Snapshot)
    ensures |KnownJoins(js, schema)| <= |js|
    ensures forall join :: join in KnownJoins(js, schema) <==> join in js && IsKnown(join, schema)
    ensures |KnownJoins(js, schema)| == |js| <==> forall join :: join in js ==> IsKnown(join, schema)
    ensures |KnownJoins(js, schema)| == |js| ==> KnownJoins(js, schema) == js
  {
    hide IsKnown;
    if js != [] {
      var front := js[..|js| - 1];
      KnownAreKept(front, schema);
      assert js == front + [js[|js| - 1]];
    }
  }

  predicate AllKnown(plan: QueryPlan, schema: Snapshot) {
    forall join :: join in plan.joins.Items() ==> IsKnown(join, schema)
  }

  lemma DroppingKeepsPlanIff(plan: QueryPlan, schema: Snapshot)
    ensures Dropped(plan, schema) == plan <==> AllKnown(plan, schema) && plan.joins != Given([])
    ensures AllKnown(Dropped(plan, schema), schema)
    ensures Dropped(Dropped(plan, schema), schema) == Dropped(plan, schema)
  {
    hide IsKnown;
    var js := plan.joins.Items();
    KnownAreKept(js, schema);
    KnownAreKept(KnownJoins(js, schema), schema);
  }

  // ---- the stages ---------------------------------------------------------

  /**
   The stages by what they report or change: an audit, the schema-aware fixes, the checks, the
   mandatory row filter, and the check of the filtered plan.
   */
  datatype Stages<E> = Stages(
    schema: Snapshot,
    audit: QueryPlan -> seq<E>,
    fix: QueryPlan -> QueryPlan,
    check: QueryPlan -> seq<E>,
    rowFilter: QueryPlan -> Option<Predicate>,
    recheck: QueryPlan -> seq<E>)

  function WithFilter(plan: QueryPlan, filter: Option<Predicate>): QueryPlan {
    match filter
    case None => plan
    case Some(f) =>
      plan.(where_ := Some(match plan.where_ case Some(existing) => And(existing, f) case None => f))
  }

  function ValidateRepairing<E>(stages: Stages<E>, plan: QueryPlan): Result<QueryPlan, seq<E>> {
    var repaired := Dropped(plan, stages.schema);
    if stages.audit(repaired) != [] then Failure(stages.audit(repaired))
    else
      var fixed := stages.fix(repaired);
      if stages.check(fixed) != [] then Failure(stages.check(fixed))
      else
        var filtered := WithFilter(fixed, stages.rowFilter(fixed));
        if stages.recheck(filtered) != [] then Failure(stages.recheck(filtered)) else Success(filtered)
  }

  lemma {:induction p} AndIsLarger(p: Predicate, f: Predicate)
    ensures And(p, f) != p
  {
    if p.And? { AndIsLarger(p.l, p.r); }
  }

  lemma FilterChangesPlan(plan: QueryPlan, filter: Option<Predicate>)
    ensures WithFilter(plan, filter) == plan <==> filter.None?
  {
    if filter.Some? && plan.where_.Some? { AndIsLarger(plan.where_.value, filter.value); }
  }

  /** A plan that the fixes leave alone is validated as it is if and only if nothing is dropped and nothing filtered. */
  lemma ValidatedUnchangedIff<E>(stages: Stages<E>, plan: QueryPlan)
    requires ValidateRepairing(stages, plan).Success?
    requires stages.fix(Dropped(plan, stages.schema)) == Dropped(plan, stages.schema)
    ensures ValidateRepairing(stages, plan) == Success(plan) <==>
      && AllKnown(plan, stages.schema) && plan.joins != Given([])
      && stages.rowFilter(plan).None?
  {
    hide AllKnown, WithFilter;
    var repaired := Dropped(plan, stages.schema);
    DroppingKeepsPlanIff(plan, stages.schema);
    var filter := stages.rowFilter(repaired);
    FilterChangesPlan(repaired, filter);
    if WithFilter(repaired, filter) == plan { FilteredWhere(repaired, plan, filter); }
  }

  lemma FilteredWhere(repaired: QueryPlan, plan: QueryPlan, filter: Option<Predicate>)
    requires repaired.where_ == plan.where_ && WithFilter(repaired, filter) == plan
    ensures filter.None?
  {
    if filter.Some? && plan.where_.Some? { AndIsLarger(plan.where_.value, filter.value); }
  }

  /** A filtered plan ends in its filter, so a plan that does not is not the validated one. */
  predicate EndsWith(where_: Option<Predicate>, filter: Predicate) {
    where_ == Some(filter) || (where_.Some? && where_.value.And? && where_.value.r == filter)
  }

  /** `after` is `before` with the filter behind what WHERE said already. */
  predicate Filters(before: QueryPlan, filter: Predicate, after: QueryPlan) {
    && after == before.(where_ := after.where_)
    && (before.where_.None? ==> after.where_ == Some(filter))
    && (before.where_.Some? ==> after.where_ == Some(And(before.where_.value, filter)))
  }

  lemma ValidatedEndsWithFilter<E>(stages: Stages<E>, plan: QueryPlan)
    requires ValidateRepairing(stages, plan).Success?
    ensures
      var fixed := stages.fix(Dropped(plan, stages.schema));
      var validated := ValidateRepairing(stages, plan).value;
      match stages.rowFilter(fixed)
      case None => validated == fixed
      case Some(f) => Filters(fixed, f, validated) && EndsWith(validated.where_, f)
  {
  }

  /** A plan is validated if and only if no stage objects; otherwise the first objection stands. */
  lemma ValidationFailsIff<E>(stages: Stages<E>, plan: QueryPlan, errors: seq<E>)
    ensures
      var repaired := Dropped(plan, stages.schema);
      var fixed := stages.fix(repaired);
      ValidateRepairing(stages, plan) == Failure(errors) <==>
        && errors != []
        && (|| stages.audit(repaired) == errors
            || (stages.audit(repaired) == [] && stages.check(fixed) == errors)
            || (stages.audit(repaired) == [] && stages.check(fixed) == []
                && exists filtered :: IsFiltered(stages, fixed, filtered) && stages.recheck(filtered) == errors))
  {
    var fixed := stages.fix(Dropped(plan, stages.schema));
    var filtered := WithFilter(fixed, stages.rowFilter(fixed));
    assert IsFiltered(stages, fixed, filtered);
    forall other | IsFiltered(stages, fixed, other) ensures other == filtered {}
  }

  predicate IsFiltered<E>(stages: Stages<E>, fixed: QueryPlan, filtered: QueryPlan) {
    match stages.rowFilter(fixed)
    case None => filtered == fixed
    case Some(f) => Filters(fixed, f, filtered)
  }

  /** On every row a filtered WHERE is true if and only if the filter is, and what WHERE said before. */
  lemma FilterIsEnforced(
    eng: Engine, before: QueryPlan, filter: Predicate, after: QueryPlan, rows: set<Row>, row: Row)
    requires Filters(before, filter, after)
    ensures after.where_.Some?
    ensures EvalPredicate(eng, after.where_.value, rows, row) == Ok(VBool(true)) <==>
      && EvalPredicate(eng, filter, rows, row) == Ok(VBool(true))
      && (before.where_.Some? ==> EvalPredicate(eng, before.where_.value, rows, row) == Ok(VBool(true)))
  {
    if before.where_.Some? {
      assert EvalPredicate(eng, And(before.where_.value, filter), rows, row) ==
        And3(EvalPredicate(eng, before.where_.value, rows, row), EvalPredicate(eng, filter, rows, row));
    }
    hide EvalPredicate;
  }

  /** The joins that stay keep their order. */
  lemma {:induction false} KnownJoinsOfConcat(a: seq<JoinClause>, b: seq<JoinClause>, schema: Snapshot)
    ensures KnownJoins(a + b, schema) == KnownJoins(a, schema) + KnownJoins(b, schema)
  {
    hide KnownJoins, IsKnown;
    if b == [] {
      assert a + b == a;
      KnownAreKept(b, schema);
    } else {
      var n := |b| - 1;
      KnownJoinsOfConcat(a, b[..n], schema);
      KnownJoinsOfMore(a + b[..n], b[n], schema);
      KnownJoinsOfMore(b[..n], b[n], schema);
      assert a + b[..n] + [b[n]] == a + b && b[..n] + [b[n]] == b;
    }
  }

  lemma KnownJoinsOfMore(a: seq<JoinClause>, join: JoinClause, schema: Snapshot)
    ensures KnownJoins(a + [join], schema) == KnownJoins(a, schema) + if IsKnown(join, schema) then [join] else []
  {
    assert (a + [join])[..|a|] == a;
  }
}
