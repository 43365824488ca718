/** A mutable place holding a plan: the source's `&mut QueryPlan`, which nothing else aliases. */
module Place {
  import opened Ast

  class PlanCell {
    var plan: QueryPlan

    constructor (plan: QueryPlan)
      ensures this.plan == plan
    {
      this.plan := plan;
    }
  }
}
