/**
 * The plan view of src/components/Plan.tsx. Its `ResourceChange` and
 * `PlanRepresentation` have the shapes of terraform.ts's `ResourceChange` and
 * `Plan` (TerraformTypes); its filter has no address query, and its
 * toggleActionFilter updates the list as TerraformPlan.ToggleAction does.
 */
module LegacyPlan {
  import opened TerraformTypes
  import TerraformPlan

  /** `PlanFilter`: the visible actions and the optional `type` list. */
  datatype PlanFilter = PlanFilter(actions: seq<TerraformPlan.FilterAction>, types: Option<seq<string>>)

  /** The initial filter: every action but `no-op`. */
  const DefaultFilter: PlanFilter := PlanFilter(["update", "delete", "create", "read"], None)

  /** toggleActionFilter: `setFilter({...filter, actions: filteredActions})`. */
  function WithActionToggled(filter: PlanFilter, a: TerraformPlan.FilterAction): (next: PlanFilter)
    ensures next.types == filter.types
    ensures a in filter.actions ==>
      a !in next.actions && TerraformPlan.IsSubsequence(next.actions, filter.actions)
    ensures a in filter.actions ==>
      |next.actions| == |filter.actions| - multiset(filter.actions)[a]
    ensures a !in filter.actions ==> next.actions == filter.actions + [a]
    ensures forall x :: x != a ==> (x in next.actions <==> x in filter.actions)
  {
    TerraformPlan.ToggleActionMeaning(filter.actions, a);
    filter.(actions := TerraformPlan.ToggleAction(filter.actions, a))
  }

  /** The default leaves `no-op` out and selects the other four actions. */
  lemma DefaultSelectsAllButNoOp()
    ensures "no-op" !in DefaultFilter.actions
    ensures forall a: TerraformPlan.FilterAction :: a != "no-op" ==> a in DefaultFilter.actions
  {
  }

  /**
   * Toggling the same action twice: an absent action restores the filter
   * exactly; a present one is selected again but moved to the end of the list.
   */
  lemma ToggleTwice(filter: PlanFilter, a: TerraformPlan.FilterAction)
    ensures a !in filter.actions ==> WithActionToggled(WithActionToggled(filter, a), a) == filter
    ensures a in filter.actions ==>
      WithActionToggled(WithActionToggled(filter, a), a).actions == TerraformPlan.RemoveAll(filter.actions, a) + [a]
    ensures a in filter.actions && filter.actions[|filter.actions| - 1] != a ==>
      WithActionToggled(WithActionToggled(filter, a), a) != filter
  {
    TerraformPlan.ToggleTwice(filter.actions, a);
  }
}
