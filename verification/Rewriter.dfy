/** The rewrite driver (crates/vlorql-core/src/optimizer/rules.rs). */
module Rewriter {
  import opened Prelude
  import opened Ast
  import opened Fold
  import opened FoldNormalForm
  import opened FoldMeasure
  import opened Semantics
  import opened FoldMeaning

  type Error = string
  type Rule = QueryPlan -> Result<QueryPlan, Error>

  /** Every rule in order, each on the previous one's output; the first error ends the run. */
  function RunRules(rules: seq<Rule>, plan: QueryPlan): Result<QueryPlan, Error> {
    if rules == [] then Success(plan)
    else
      match rules[0](plan)
      case Failure(e) => Failure(e)
      case Success(next) => RunRules(rules[1..], next)
  }

  /** At most `rounds` runs, ending early at the first that changes nothing. */
  function RunRounds(rules: seq<Rule>, plan: QueryPlan, rounds: nat): Result<QueryPlan, Error>
    decreases rounds
  {
    if rounds == 0 then Success(plan)
    else
      match RunRules(rules, plan)
      case Failure(e) => Failure(e)
      case Success(next) => if next == plan then Success(next) else RunRounds(rules, next, rounds - 1)
  }

  class RewriterPipeline {
    var rules: seq<Rule>

    constructor ()
      ensures rules == []
    {
      rules := [];
    }

    method Push(rule: Rule)
      modifies this
      ensures rules == old(rules) + [rule]
    {
      rules := rules + [rule];
    }

    method Rewrite(plan: QueryPlan) returns (result: Result<QueryPlan, Error>)
      ensures result == RunRules(rules, plan)
    {
      var current := plan;
      for i := 0 to |rules|
        invariant RunRules(rules[i..], current) == RunRules(rules, plan)
      {
        assert rules[i..][1..] == rules[i + 1..];
        var next := rules[i](current);
        if next.Failure? { return next; }
        current := next.value;
      }
      return Success(current);
    }

    method RepeatUntilStable(plan: QueryPlan, maxRounds: nat) returns (result: Result<QueryPlan, Error>)
      ensures result == RunRounds(rules, plan, maxRounds)
    {
      var current := plan;
      for round := 0 to maxRounds
        invariant RunRounds(rules, current, maxRounds - round) == RunRounds(rules, plan, maxRounds)
      {
        var next := Rewrite(current);
        if next.Failure? { return next; }
        if next.value == current { return next; }
        current := next.value;
      }
      return Success(current);
    }
  }

  /** A pushed rule runs last, on what the earlier rules produced. */
  lemma {:induction false} PushedRuleRunsLast(rules: seq<Rule>, rule: Rule, plan: QueryPlan)
    ensures RunRules(rules + [rule], plan)
         == (match RunRules(rules, plan) case Failure(e) => Failure(e) case Success(next) => rule(next))
  {
    if rules == [] {
      assert (rules + [rule])[1..] == [];
    } else {
      assert (rules + [rule])[1..] == rules[1..] + [rule];
      match rules[0](plan) {
        case Failure(_) =>
        case Success(next) => PushedRuleRunsLast(rules[1..], rule, next);
      }
    }
  }

  // ---- what a run is ------------------------------------------------------

  /** `plans` are the plans before, between and after the rules. */
  ghost predicate Steps(rules: seq<Rule>, plans: seq<QueryPlan>) {
    0 < |plans| <= |rules| + 1 && forall i :: 0 <= i < |plans| - 1 ==> rules[i](plans[i]) == Success(plans[i + 1])
  }

  /** Every rule succeeds on what the one before gave. */
  ghost predicate Leads(rules: seq<Rule>, plan: QueryPlan, plans: seq<QueryPlan>, result: QueryPlan) {
    Steps(rules, plans) && |plans| == |rules| + 1 && plans[0] == plan && plans[|rules|] == result
  }

  /** Some rule fails on what the ones before, which succeeded, gave. */
  ghost predicate Breaks(rules: seq<Rule>, plan: QueryPlan, plans: seq<QueryPlan>, e: Error) {
    && Steps(rules, plans) && |plans| <= |rules| && plans[0] == plan
    && rules[|plans| - 1](plans[|plans| - 1]) == Failure(e)
  }

  /** A run over the rules succeeds exactly if all of them do, each on what the one before gave. */
  lemma {:induction false} RunSucceedsIff(rules: seq<Rule>, plan: QueryPlan, result: QueryPlan)
    ensures RunRules(rules, plan) == Success(result) <==> exists plans :: Leads(rules, plan, plans, result)
  {
    if rules == [] {
      assert Leads(rules, plan, [plan], plan);
    } else {
      if rules[0](plan).Success? { RunSucceedsIff(rules[1..], rules[0](plan).value, result); }
      if RunRules(rules, plan) == Success(result) {
        var plans :| Leads(rules[1..], rules[0](plan).value, plans, result);
        StepsGrow(rules, plan, plans);
        assert Leads(rules, plan, [plan] + plans, result);
      }
      if plans :| Leads(rules, plan, plans, result) {
        StepsShrink(rules, plans);
        assert Leads(rules[1..], rules[0](plan).value, plans[1..], result);
      }
    }
  }

  /** It fails exactly with the error of the first rule that fails. */
  lemma {:induction false} RunFailsIff(rules: seq<Rule>, plan: QueryPlan, e: Error)
    ensures RunRules(rules, plan) == Failure(e) <==> exists plans :: Breaks(rules, plan, plans, e)
  {
    if rules != [] {
      if rules[0](plan).Success? { RunFailsIff(rules[1..], rules[0](plan).value, e); }
      if RunRules(rules, plan) == Failure(e) {
        if rules[0](plan).Failure? {
          assert Breaks(rules, plan, [plan], e);
        } else {
          var plans :| Breaks(rules[1..], rules[0](plan).value, plans, e);
          StepsGrow(rules, plan, plans);
          LastOfLonger(rules, plan, plans);
          assert Breaks(rules, plan, [plan] + plans, e);
        }
      }
      if plans :| Breaks(rules, plan, plans, e) {
        if |plans| > 1 {
          StepsShrink(rules, plans);
          assert Breaks(rules[1..], rules[0](plan).value, plans[1..], e);
        }
      }
    }
  }

  lemma LastOfLonger(rules: seq<Rule>, plan: QueryPlan, plans: seq<QueryPlan>)
    requires 0 < |plans| < |rules|
    ensures ([plan] + plans)[|plans|] == plans[|plans| - 1] && rules[|plans|] == rules[1..][|plans| - 1]
  {
  }

  lemma StepsGrow(rules: seq<Rule>, plan: QueryPlan, plans: seq<QueryPlan>)
    requires rules != [] && Steps(rules[1..], plans) && rules[0](plan) == Success(plans[0])
    ensures Steps(rules, [plan] + plans)
  {
    var longer := [plan] + plans;
    forall i | 0 <= i < |longer| - 1 ensures rules[i](longer[i]) == Success(longer[i + 1]) {
      if i > 0 { assert rules[1..][i - 1](plans[i - 1]) == Success(plans[i]); }
    }
  }

  lemma StepsShrink(rules: seq<Rule>, plans: seq<QueryPlan>)
    requires rules != [] && Steps(rules, plans) && |plans| > 1
    ensures Steps(rules[1..], plans[1..]) && rules[0](plans[0]) == Success(plans[1..][0])
  {
    var rest, shorter := rules[1..], plans[1..];
    forall i | 0 <= i < |shorter| - 1 ensures rest[i](shorter[i]) == Success(shorter[i + 1]) {
      assert rules[i + 1](plans[i + 1]) == Success(plans[i + 2]);
    }
  }

  predicate IsRound(rules: seq<Rule>, plan: QueryPlan, next: QueryPlan) {
    RunRules(rules, plan) == Success(next) && next != plan
  }

  /** Each of `plans` came from running the rules on the one before, and differs from it. */
  ghost predicate Rounds(rules: seq<Rule>, plans: seq<QueryPlan>) {
    && plans != []
    && forall i :: 0 <= i < |plans| - 1 ==> IsRound(rules, plans[i], plans[i + 1])
  }

  /**
   Repetition stops at the first of: a run that fails, whose error is the result; a run that
   changes nothing; the limit.
   */
  lemma {:induction false} RunRoundsIff(rules: seq<Rule>, plan: QueryPlan, rounds: nat, result: Result<QueryPlan, Error>)
    ensures RunRounds(rules, plan, rounds) == result <==>
      exists plans :: Rounds(rules, plans) && plans[0] == plan && EndsRounds(rules, plans, rounds, result)
    decreases rounds
  {
    hide RunRules;
    if rounds == 0 || RunRules(rules, plan).Failure? || RunRules(rules, plan).value == plan {
      assert Rounds(rules, [plan]);
      assert EndsRounds(rules, [plan], rounds, RunRounds(rules, plan, rounds));
      if plans :| Rounds(rules, plans) && plans[0] == plan && EndsRounds(rules, plans, rounds, result) {
        OnlyRound(rules, plans, rounds, result);
      }
    } else {
      var next := RunRules(rules, plan).value;
      RunRoundsIff(rules, next, rounds - 1, result);
      if plans :| Rounds(rules, plans) && plans[0] == next && EndsRounds(rules, plans, rounds - 1, result) {
        RoundsGrow(rules, plan, plans);
        assert EndsRounds(rules, [plan] + plans, rounds, result);
      }
      if plans :| Rounds(rules, plans) && plans[0] == plan && EndsRounds(rules, plans, rounds, result) {
        assert |plans| > 1;
        RoundsShrink(rules, plans);
        assert EndsRounds(rules, plans[1..], rounds - 1, result);
      }
    }
  }

  lemma OnlyRound(rules: seq<Rule>, plans: seq<QueryPlan>, rounds: nat, result: Result<QueryPlan, Error>)
    requires Rounds(rules, plans) && EndsRounds(rules, plans, rounds, result)
    requires rounds == 0 || RunRules(rules, plans[0]).Failure? || RunRules(rules, plans[0]).value == plans[0]
    ensures |plans| == 1
  {
    hide RunRules;
    var second := if |plans| > 1 then plans[1] else plans[0];
    assert |plans| > 1 ==> IsRound(rules, plans[0], second);
  }

  ghost predicate EndsRounds(rules: seq<Rule>, plans: seq<QueryPlan>, rounds: nat, result: Result<QueryPlan, Error>)
    requires plans != []
  {
    var last := plans[|plans| - 1];
    if |plans| == rounds + 1 then result == Success(last)
    else
      && |plans| <= rounds
      && (RunRules(rules, last).Failure? || RunRules(rules, last).value == last)
      && result == RunRules(rules, last)
  }

  lemma RoundsGrow(rules: seq<Rule>, plan: QueryPlan, plans: seq<QueryPlan>)
    requires Rounds(rules, plans) && RunRules(rules, plan) == Success(plans[0]) && plans[0] != plan
    ensures Rounds(rules, [plan] + plans)
  {
    hide RunRules;
    var longer := [plan] + plans;
    forall i | 0 <= i < |longer| - 1
      ensures IsRound(rules, longer[i], longer[i + 1])
    {
      if i > 0 { assert longer[i] == plans[i - 1] && longer[i + 1] == plans[i]; }
    }
  }

  lemma RoundsShrink(rules: seq<Rule>, plans: seq<QueryPlan>)
    requires Rounds(rules, plans) && |plans| > 1
    ensures Rounds(rules, plans[1..]) && RunRules(rules, plans[0]) == Success(plans[1..][0])
  {
    hide RunRules;
    var shorter := plans[1..];
    forall i | 0 <= i < |shorter| - 1
      ensures IsRound(rules, shorter[i], shorter[i + 1])
    {
      assert IsRound(rules, plans[i + 1], plans[i + 2]);
    }
  }

  // ---- reaching a fixed point ---------------------------------------------

  /** One more run would change nothing (it may still fail). */
  predicate IsStable(rules: seq<Rule>, plan: QueryPlan) {
    RunRules(rules, plan).Success? ==> RunRules(rules, plan).value == plan
  }

  /** Every run that changes a plan lowers `measure`. */
  ghost predicate Decreasing(rules: seq<Rule>, measure: QueryPlan -> nat) {
    forall p :: !IsStable(rules, p) ==> measure(RunRules(rules, p).value) < measure(p)
  }

  /** As many rounds as the measure allows are enough to reach a fixed point. */
  lemma {:induction false} EnoughRoundsAreStable(
    rules: seq<Rule>, measure: QueryPlan -> nat, plan: QueryPlan, rounds: nat)
    requires Decreasing(rules, measure) && rounds >= measure(plan)
    ensures var r := RunRounds(rules, plan, rounds); r.Success? ==> IsStable(rules, r.value)
    decreases rounds
  {
    if rounds > 0 && RunRules(rules, plan).Success? && RunRules(rules, plan).value != plan {
      EnoughRoundsAreStable(rules, measure, RunRules(rules, plan).value, rounds - 1);
    }
  }

  function FoldingRule(form: FalseForm): Rule {
    plan => Success(FoldPlan(plan, form))
  }

  lemma FoldingRunsOnce(form: FalseForm, plan: QueryPlan)
    ensures RunRules([FoldingRule(form)], plan) == Success(FoldPlan(plan, form))
  {
    assert [FoldingRule(form)][1..] == [];
  }

  /** The number of foldable nodes is such a measure for the folding pipeline. */
  lemma FoldingDecreases(form: FalseForm)
    ensures Decreasing([FoldingRule(form)], SizePlan)
  {
    hide FoldPlan, SizePlan;
    forall p | !IsStable([FoldingRule(form)], p)
      ensures SizePlan(RunRules([FoldingRule(form)], p).value) < SizePlan(p)
    {
      FoldingRunsOnce(form, p);
      PlanDrops(p, form);
    }
  }

  /** With folding alone, one round already gives the fixed point, whatever the limit. */
  lemma FoldingIsStableAfterOneRound(form: FalseForm, plan: QueryPlan, rounds: nat)
    requires rounds >= 1
    ensures RunRounds([FoldingRule(form)], plan, rounds) == Success(FoldPlan(plan, form))
    ensures IsStable([FoldingRule(form)], FoldPlan(plan, form))
  {
    hide FoldPlan;
    var folded := FoldPlan(plan, form);
    FoldingRunsOnce(form, plan);
    FoldingRunsOnce(form, folded);
    FoldingIsIdempotent(plan, True, Star, form);
    if folded != plan && rounds >= 2 {
      assert RunRounds([FoldingRule(form)], folded, rounds - 1) == Success(folded);
    }
  }

  // ---- meaning ------------------------------------------------------------

  /** What the rewriter contract asks of a rule: no plan it accepts changes its result. */
  ghost predicate Preserves(k: Fidelity, eng: Engine, rule: Rule) {
    forall plan, outer :: rule(plan).Success? ==>
      RelationRefines(k, EvalPlan(eng, plan, outer), EvalPlan(eng, rule(plan).value, outer))
  }

  lemma RefinesIsTransitive(
    k: Fidelity, a: Outcome<Relation_>, b: Outcome<Relation_>, c: Outcome<Relation_>)
    ensures RelationRefines(k, a, a)
    ensures RelationRefines(k, a, b) && RelationRefines(k, b, c) ==> RelationRefines(k, a, c)
  {
    hide SameRelation;
    if a.Ok? {
      SameIsReflexive(a.value);
      if b.Ok? && c.Ok? && SameRelation(k, a.value, b.value) && SameRelation(k, b.value, c.value) {
        SameIsTransitive(k, a.value, b.value, c.value);
      }
    }
  }

  lemma {:induction false} RunsPreserve(k: Fidelity, eng: Engine, rules: seq<Rule>, plan: QueryPlan, outer: Row)
    requires forall i :: 0 <= i < |rules| ==> Preserves(k, eng, rules[i])
    requires RunRules(rules, plan).Success?
    ensures RelationRefines(k, EvalPlan(eng, plan, outer), EvalPlan(eng, RunRules(rules, plan).value, outer))
  {
    hide EvalPlan, RelationRefines;
    var result := EvalPlan(eng, RunRules(rules, plan).value, outer);
    if rules == [] {
      RefinesIsTransitive(k, result, result, result);
    } else {
      assert Preserves(k, eng, rules[0]);
      var next := rules[0](plan).value;
      RunsPreserve(k, eng, rules[1..], next, outer);
      RefinesIsTransitive(k, EvalPlan(eng, plan, outer), EvalPlan(eng, next, outer), result);
    }
  }

  /** Rules that preserve meaning may be chained and repeated for any number of rounds. */
  lemma {:induction false} RoundsPreserve(
    k: Fidelity, eng: Engine, rules: seq<Rule>, plan: QueryPlan, rounds: nat, outer: Row)
    requires forall i :: 0 <= i < |rules| ==> Preserves(k, eng, rules[i])
    requires RunRounds(rules, plan, rounds).Success?
    ensures RelationRefines(k, EvalPlan(eng, plan, outer), EvalPlan(eng, RunRounds(rules, plan, rounds).value, outer))
    decreases rounds
  {
    hide EvalPlan, Preserves, RelationRefines;
    var result := EvalPlan(eng, RunRounds(rules, plan, rounds).value, outer);
    RefinesIsTransitive(k, result, result, result);
    if rounds > 0 {
      RunsPreserve(k, eng, rules, plan, outer);
      var next := RunRules(rules, plan).value;
      if next != plan {
        RoundsPreserve(k, eng, rules, next, rounds - 1, outer);
        RefinesIsTransitive(k, EvalPlan(eng, plan, outer), EvalPlan(eng, next, outer), result);
      }
    }
  }

  /** The folding pipeline, run for any number of rounds, keeps the result of every sound plan. */
  lemma FoldingPipelineRefines(
    eng: Engine, plan: QueryPlan, form: FalseForm, k: Fidelity, rounds: nat, outer: Row)
    requires Monotone(eng) && SoundPlan(eng, plan, form, k, outer)
    ensures RunRounds([FoldingRule(form)], plan, rounds).Success?
    ensures RelationRefines(k, EvalPlan(eng, plan, outer),
                            EvalPlan(eng, RunRounds([FoldingRule(form)], plan, rounds).value, outer))
  {
    hide EvalPlan, FoldPlan, Monotone, SoundPlan, RelationRefines;
    if rounds > 0 {
      FoldingIsStableAfterOneRound(form, plan, rounds);
      FoldedPlanRefines(eng, plan, form, k, outer);
    } else {
      RefinesIsTransitive(k, EvalPlan(eng, plan, outer), EvalPlan(eng, plan, outer), EvalPlan(eng, plan, outer));
    }
  }
}
