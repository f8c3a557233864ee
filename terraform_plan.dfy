/**
 * The plan view of src/components/Terraform/Plan.tsx: the filter state, its
 * default, the two updates the controls make to it, and the predicate that
 * selects the resource changes shown.
 */
module TerraformPlan {
  import opened TerraformTypes

  /** `ChangeFilterAction`: the five action tokens a filter can hold. */
  type FilterAction = s: string | s == "no-op" || s == "create" || s == "read" || s == "update" || s == "delete"
    witness "no-op"

  /** `PlanFilter`: the visible actions, the address query and the optional `type` list. */
  datatype PlanFilter = PlanFilter(actions: seq<FilterAction>, address: string, types: Option<seq<string>>)

  /** The initial filter: every action but `no-op`, and no address query. */
  const DefaultFilter: PlanFilter := PlanFilter(["update", "delete", "create", "read"], "", None)

  // ---------------------------------------------------------------------------
  // Order-preserving subsequences
  // ---------------------------------------------------------------------------

  /** `xs` is `ys` with some elements left out and the rest in their order. */
  predicate IsSubsequence<T(==)>(xs: seq<T>, ys: seq<T>)
    decreases |ys|
  {
    if xs == [] then true
    else if ys == [] then false
    else (xs[0] == ys[0] && IsSubsequence(xs[1..], ys[1..])) || IsSubsequence(xs, ys[1..])
  }

  // ---------------------------------------------------------------------------
  // toggleActionFilter
  // ---------------------------------------------------------------------------

  /** `actions.filter((action) => action !== a)`. */
  function RemoveAll(actions: seq<FilterAction>, a: FilterAction): (rest: seq<FilterAction>)
    ensures a !in rest
    ensures IsSubsequence(rest, actions)
    ensures forall x :: x != a ==> multiset(rest)[x] == multiset(actions)[x]
    ensures forall x :: x != a ==> (x in rest <==> x in actions)
    ensures |rest| == |actions| - multiset(actions)[a]
    decreases |actions|
  {
    if actions == [] then []
    else
      var tail := RemoveAll(actions[1..], a);
      assert actions == [actions[0]] + actions[1..];
      if actions[0] == a then tail else [actions[0]] + tail
  }

  /** The action list after toggling `a`: every occurrence removed if present, else `a` appended. */
  function ToggleAction(actions: seq<FilterAction>, a: FilterAction): (toggled: seq<FilterAction>)
    ensures a in toggled <==> a !in actions
    ensures forall x :: x != a ==> (x in toggled <==> x in actions)
  {
    if a in actions then RemoveAll(actions, a) else actions + [a]
  }

  lemma {:induction false} RemoveAllAbsent(actions: seq<FilterAction>, a: FilterAction)
    requires a !in actions
    ensures RemoveAll(actions, a) == actions
    decreases |actions|
  {
    if actions != [] {
      RemoveAllAbsent(actions[1..], a);
    }
  }

  lemma {:induction false} RemoveAllAppend(actions: seq<FilterAction>, a: FilterAction)
    ensures RemoveAll(actions + [a], a) == RemoveAll(actions, a)
    decreases |actions|
  {
    if actions == [] {
      assert [a][1..] == [];
    } else {
      assert (actions + [a])[1..] == actions[1..] + [a];
      RemoveAllAppend(actions[1..], a);
    }
  }

  /**
   * Toggling: a present action disappears (every occurrence) and the rest keep
   * their order and count; an absent one is appended at the end.
   */
  lemma ToggleActionMeaning(actions: seq<FilterAction>, a: FilterAction)
    ensures a in actions ==>
      && a !in ToggleAction(actions, a)
      && IsSubsequence(ToggleAction(actions, a), actions)
      && |ToggleAction(actions, a)| == |actions| - multiset(actions)[a]
    ensures a !in actions ==> ToggleAction(actions, a) == actions + [a]
    ensures forall x :: x != a ==> (x in ToggleAction(actions, a) <==> x in actions)
  {
    forall x | x != a ensures x in ToggleAction(actions, a) <==> x in actions {
      if a in actions {
        assert x in RemoveAll(actions, a) <==> multiset(RemoveAll(actions, a))[x] > 0;
      }
    }
  }

  /**
   * Toggling twice: an absent action leaves the list exactly as it was; a
   * present one comes back, but at the end, after the others.
   */
  lemma {:induction false} ToggleTwice(actions: seq<FilterAction>, a: FilterAction)
    ensures a !in actions ==> ToggleAction(ToggleAction(actions, a), a) == actions
    ensures a in actions ==> ToggleAction(ToggleAction(actions, a), a) == RemoveAll(actions, a) + [a]
  {
    if a !in actions {
      RemoveAllAppend(actions, a);
      RemoveAllAbsent(actions, a);
    }
  }

  /** `setFilter({...filter, actions: filteredActions})`: only the action list changes. */
  function WithActionToggled(filter: PlanFilter, a: FilterAction): (next: PlanFilter)
    ensures next.address == filter.address && next.types == filter.types
    ensures a in next.actions <==> a !in filter.actions
    ensures forall x :: x != a ==> (x in next.actions <==> x in filter.actions)
  {
    ToggleActionMeaning(filter.actions, a);
    filter.(actions := ToggleAction(filter.actions, a))
  }

  /** handleAddressFilterChange: `setFilter({...filter, address: value})`. */
  function WithAddress(filter: PlanFilter, value: string): (next: PlanFilter)
    ensures next.address == value
    ensures next.actions == filter.actions && next.types == filter.types
  {
    filter.(address := value)
  }

  // ---------------------------------------------------------------------------
  // filteredChanges
  // ---------------------------------------------------------------------------

  /** `toLowerCase` on ASCII letters; other characters are kept. */
  function LowerChar(c: char): char {
    if 'A' <= c <= 'Z' then (c as int + 32) as char else c
  }

  function LowerAscii(s: string): (lower: string)
    ensures |lower| == |s|
    ensures forall i :: 0 <= i < |s| ==> lower[i] == LowerChar(s[i])
  {
    if s == [] then [] else [LowerChar(s[0])] + LowerAscii(s[1..])
  }

  /** `haystack.includes(needle)`. */
  predicate Contains(haystack: string, needle: string) {
    exists i :: 0 <= i <= |haystack| && needle <= haystack[i..]
  }

  /** The name control: an empty query passes; otherwise the address must contain the lowercased query. */
  predicate AddressMatches(filter: PlanFilter, change: ResourceChange): (matched: bool)
    ensures filter.address == "" ==> matched
    ensures matched && filter.address != "" ==> |filter.address| <= |change.address|
  {
    filter.address == "" || Contains(change.address, LowerAscii(filter.address))
  }

  /** The operation control: some selected action occurs among the change's actions. */
  predicate ActionsMatch(filter: PlanFilter, change: ResourceChange): (matched: bool)
    ensures matched <==> exists a :: a in filter.actions && a in change.change.actions
    ensures filter.actions == [] || change.change.actions == [] ==> !matched
  {
    exists i :: 0 <= i < |filter.actions| && filter.actions[i] in change.change.actions
  }

  /** `[name, operation].every((f) => f() === true)`. */
  predicate Shown(filter: PlanFilter, change: ResourceChange): (shown: bool)
    ensures shown ==> filter.actions != [] && change.change.actions != []
    ensures filter.address == "" ==> (shown <==> ActionsMatch(filter, change))
  {
    AddressMatches(filter, change) && ActionsMatch(filter, change)
  }

  /**
   * filteredChanges: the resource changes that pass both controls, in plan
   * order, each as often as the plan lists it; the others are dropped.
   */
  function FilterChanges(changes: seq<ResourceChange>, filter: PlanFilter): (shown: seq<ResourceChange>)
    ensures IsSubsequence(shown, changes)
    ensures forall c :: multiset(shown)[c] == if Shown(filter, c) then multiset(changes)[c] else 0
    ensures forall c :: c in shown <==> c in changes && Shown(filter, c)
    decreases |changes|
  {
    if changes == [] then []
    else
      var rest := FilterChanges(changes[1..], filter);
      assert changes == [changes[0]] + changes[1..];
      if Shown(filter, changes[0]) then [changes[0]] + rest else rest
  }

  /** A list whose every element passes is its own filtering. */
  lemma {:induction false} FilterKeepsPassing(changes: seq<ResourceChange>, filter: PlanFilter)
    requires forall c :: c in changes ==> Shown(filter, c)
    ensures FilterChanges(changes, filter) == changes
    decreases |changes|
  {
    if changes != [] {
      FilterKeepsPassing(changes[1..], filter);
    }
  }

  /** Filtering the shown changes again with the same filter shows the same changes. */
  lemma FilterIdempotent(changes: seq<ResourceChange>, filter: PlanFilter)
    ensures FilterChanges(FilterChanges(changes, filter), filter) == FilterChanges(changes, filter)
  {
    FilterKeepsPassing(FilterChanges(changes, filter), filter);
  }

  /** With no action selected nothing is shown. */
  lemma NoActionsShowNothing(changes: seq<ResourceChange>, filter: PlanFilter)
    requires filter.actions == []
    ensures FilterChanges(changes, filter) == []
  {
  }

  /**
   * The default filter shows exactly the well-formed changes whose action tuple
   * is not `["no-op"]`.
   */
  lemma DefaultShowsAllButNoOp(change: ResourceChange)
    requires IsChangeAction(change.change.actions)
    ensures Shown(DefaultFilter, change) <==> change.change.actions != ["no-op"]
  {
    var acts := change.change.actions;
    if acts != ["no-op"] {
      var i :| 0 <= i < 4 && DefaultFilter.actions[i] in acts by {
        if "update" in acts { assert DefaultFilter.actions[0] in acts; }
        else if "delete" in acts { assert DefaultFilter.actions[1] in acts; }
        else if "create" in acts { assert DefaultFilter.actions[2] in acts; }
        else { assert "read" in acts; assert DefaultFilter.actions[3] in acts; }
      }
    }
  }

  /** A query that is already lower case is searched for as typed. */
  lemma {:induction false} LowercaseQuerySearchedAsTyped(filter: PlanFilter, change: ResourceChange)
    requires forall i :: 0 <= i < |filter.address| ==> !('A' <= filter.address[i] <= 'Z')
    ensures AddressMatches(filter, change) <==> filter.address == "" || Contains(change.address, filter.address)
  {
    assert LowerAscii(filter.address) == filter.address;
  }

  /**
   * Only the query is lowercased: the query "DB" does not find the address
   * "DB", because the address is searched for "db".
   */
  lemma QueryCaseFoldedAddressNot()
    ensures !AddressMatches(PlanFilter(["delete"], "DB", None),
                            ResourceChange("DB", None, Managed, "t", "n", 0, None, Change(["delete"], None, None, None)))
  {
    assert LowerAscii("DB") == "db";
    forall i | 0 <= i <= |"DB"| ensures !("db" <= "DB"[i..]) {
      if i == 0 { assert "DB"[0] != "db"[0]; }
    }
  }

  /**
   * The view's state: the plan it shows and the filter the controls update,
   * each update replacing the whole filter as `setFilter` does.
   */
  class PlanView {
    const representation: Plan
    var filter: PlanFilter

    constructor (representation: Plan)
      ensures this.representation == representation
      ensures filter == DefaultFilter
    {
      this.representation := representation;
      filter := DefaultFilter;
    }

    method ToggleActionFilter(a: FilterAction)
      modifies this
      ensures filter == WithActionToggled(old(filter), a)
    {
      filter := WithActionToggled(filter, a);
    }

    method HandleAddressFilterChange(value: string)
      modifies this
      ensures filter == WithAddress(old(filter), value)
    {
      filter := WithAddress(filter, value);
    }

    /** The changes the view lists under the current filter. */
    function FilteredChanges(): seq<ResourceChange>
      reads this
    {
      FilterChanges(representation.resourceChanges, filter)
    }
  }
}
