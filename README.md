# tf-summary: the per-resource diff pipeline, in Dafny

tf-summary is a browser viewer for Terraform plans exported as JSON
(`terraform show -json`). This project models the logic behind that view,
which is everything that is not rendering:

- the plan document types (`src/terraform.ts`);
- the attribute change normaliser. It folds a change's `after_unknown`,
  `after` and `before` maps into one row per attribute, then keeps the rows
  marked changed;
- `findChange`, the deep-inequality test the normaliser uses;
- the action classifiers `getChangeColor`, `getChangeHeader` and
  `getChangeLabel`, together with the `shift()` they do on their argument;
- the attribute name prettifier (`_` becomes a space);
- the plan filter: the address and action predicates, the default filter,
  `toggleActionFilter` and `handleAddressFilterChange`;
- the style-map helpers `merge` and `apply`.

Modules follow the source files:

| module | file | source |
|---|---|---|
| `TerraformTypes` | terraform_types.dfy | src/terraform.ts, plus an `Option` type and a JSON value type |
| `ChangeCore` | change_core.dfy | logic that src/components/Terraform/Change.tsx and src/components/Change.tsx share |
| `TerraformChange` | terraform_change.dfy | `getChangeHeader` and the card of src/components/Terraform/Change.tsx |
| `LegacyChange` | legacy_change.dfy | `getChangeLabel` and the card of src/components/Change.tsx |
| `TerraformPlan` | terraform_plan.dfy | src/components/Terraform/Plan.tsx |
| `LegacyPlan` | legacy_plan.dfy | src/components/Plan.tsx |
| `Theme` | theme.dfy | src/theme.tsx |

## How the model is built

- **One model for two copies.** `findChange`, the change-map fold, the
  `changes` filter, `getChangeColor` and `normalisedAddress` are character
  for character the same in both Change components (Terraform/Change.tsx
  lines 17-38, 123-133, 147 and 205-254; Change.tsx lines 17-38, 67-77, 91
  and 149-198). Each is defined once, in `ChangeCore`. Both components
  therefore agree by construction, and the rows below cite either copy.
  The logic of the two components differs only in the header text; their
  markup differs as well (header class, button colour). `LegacyChange.HeaderAndLabelDiffer`
  proves that `getChangeHeader` and `getChangeLabel` disagree exactly on
  `["create"]` and `["read"]`.
- **JSON values.** A JSON value is the datatype `Json`. It has null,
  booleans, numbers, strings, arrays, and objects stored as ordered
  key/value lists. `findChange` compares two arrays or two object-typed
  values by their `JSON.stringify` text. The model assumes that this text is
  equal exactly when the values are structurally equal, key order included.
  The assumption holds because the serialiser writes keys in property order
  and is injective on parsed JSON, and because a `JObj` holds its entries in
  the parsed object's property order: integer-like keys first, in ascending
  order, then the other keys in document order, with no key twice. `typeof null === 'object'` is kept, so null
  counts as object-typed. Under this assumption every branch of
  `findChange` is structural inequality, which is what
  `ChangeCore.FindChange` states.
- **Attribute maps.** A `Record<string, any>` is modelled by its
  `Object.entries` list. The lemmas take `DistinctKeys` for each map,
  because a JavaScript object cannot repeat a key. A null map is `None`,
  and `?? {}` turns it into the empty list.
- **Rows.** A row property that the fold has not set yet is `None`, which
  stands for `undefined`. A key only in `after` has no `before` and no
  unknown flag. A key only in `after_unknown` has no `changed`.
- **The fold.** `ChangeCore.Overlay` is the common shape of the three
  `reduce` callbacks: copy the map, then replace the key's row with the
  spread old row plus new fields. `ChangeCore.RowFor` describes the
  finished row one key at a time, and `ChangeCore.ChangeMapAt` proves that
  the fold produces exactly these rows.
- **`shift()`.** The classifiers empty a one-action argument with
  `shift()`. The argument is modelled as a class (`ActionArray`) whose
  `items` change in place. The cards pass `[...actions]`, a fresh copy. The
  `CardClassification` methods have no `modifies` clause, so the verifier
  shows that the resource change's own array is left unchanged.
- **Two-action branches.** The source tests `actions === ['create', 'delete']`.
  `===` compares references, and the literal is a freshly built array, so
  the test never holds. The method models build the literal with `new` and
  compare references, and the verifier shows the branch is dead. As a
  result, `ColorOf`, `HeaderLabel` and `ChangeLabel` give `info`, "Unknown"
  and "Unknown" for every list that is not a single action. A structural
  classifier that was evidently intended is kept apart as
  `IntendedColorOf` and `IntendedHeaderLabel`. The viewer does not use it.

### Behaviour worth knowing

- Two-action lists are classified as `info` and "Unknown". The
  "Create new before delete old" and "Delete old before create new" branches
  are never reached (`ChangeCore.IntendedColorDiffers`,
  `TerraformChange.IntendedHeaderDiffers`).
- A key that is absent from `before` never reaches `changes`. A created
  attribute keeps `changed: false`. A key only in `after_unknown` has no
  `changed` at all, so it is hidden even when its unknown flag is true
  (`ChangeCore.UnknownOnlyScenario`).
- The address filter lowercases the query but not the address. The query
  "DB" therefore does not find the address "DB"
  (`TerraformPlan.QueryCaseFoldedAddressNot`).
- The default filter selects `update`, `delete`, `create` and `read`;
  `no-op` is off, so no-op changes are hidden until it is toggled on
  (`TerraformPlan.DefaultShowsAllButNoOp`).

## Types

The datatypes and constants carry no contract of their own; each follows
these source lines.

| type or constant | source |
|---|---|
| `TerraformTypes.Mode` | src/terraform.ts:2 |
| `TerraformTypes.IsChangeAction` | src/terraform.ts:26-34 |
| `TerraformTypes.Change` | src/terraform.ts:36-42 |
| `TerraformTypes.ResourceChange` | src/terraform.ts:44-53 |
| `TerraformTypes.Resource` | src/terraform.ts:55-64 |
| `TerraformTypes.RootModule`, `TerraformTypes.ChildModule` | src/terraform.ts:66-73 |
| `TerraformTypes.Output`, `TerraformTypes.Value` | src/terraform.ts:4-13 |
| `TerraformTypes.Plan` | src/terraform.ts:15-24 |
| `ChangeCore.Row`, `ChangeCore.ChangeMap` | src/components/Terraform/Change.tsx:5-15 |
| `TerraformPlan.FilterAction`, `TerraformPlan.PlanFilter` | src/components/Terraform/Plan.tsx:10-22 |
| `TerraformPlan.DefaultFilter` | src/components/Terraform/Plan.tsx:25-28 |
| `LegacyPlan.PlanFilter` | src/components/Plan.tsx:51-54 |
| `LegacyPlan.DefaultFilter` | src/components/Plan.tsx:57-59 |
| `Theme.StyleMap` | src/theme.tsx:4 |

## Model

| member | source | states |
|---|---|---|
| `TerraformTypes.ChangeActionShape` | src/terraform.ts:26-34 | an action tuple has one or two tokens; the single ones are the five actions; the only two-token tuples are `["delete","create"]` and `["create","delete"]` |
| `ChangeCore.FindChange` | src/components/Terraform/Change.tsx:123-133 | findChange is true exactly when the two values differ structurally (arrays and object-typed values through their serialisation, key order included; primitives through `!==`) |
| `ChangeCore.FindChangeSymmetric` | src/components/Change.tsx:67-77 | findChange gives the same answer with its arguments swapped |
| `ChangeCore.FindChangeIrreflexive` | src/components/Terraform/Change.tsx:123-133 | findChange(v, v) is false for every JSON value |
| `ChangeCore.KeyOrderCounts` | src/components/Terraform/Change.tsx:128-130 | two objects holding the same entries under non-integer-like keys (`a`, `b`) in a different property order count as changed |
| `ChangeCore.NullAndTypeCount` | src/components/Change.tsx:72-76 | any value other than null differs from null in both argument orders; the number 1 differs from the string "1" |
| `ChangeCore.Overlay` | src/components/Terraform/Change.tsx:205-250 | one `Object.entries(...).reduce` pass leaves exactly the keys of the map it starts from together with the keys of the entries it folds |
| `ChangeCore.UnknownRow` | src/components/Terraform/Change.tsx:234-246 | the `after_unknown` callback sets the address, makes `before` and `after` null, sets the unknown flag, true exactly when the value is literally `true`, and keeps the earlier row's `changed` |
| `ChangeCore.AfterRow` | src/components/Terraform/Change.tsx:222-233 | the `after` callback sets the address, resets `changed` to false, records the value as `after`, and keeps the earlier row's `before` and unknown flag |
| `ChangeCore.BeforeRow` | src/components/Terraform/Change.tsx:207-220 | the `before` callback sets the address and records the value as `before`; `changed` is set, and it is true exactly when no earlier row exists, the row has no `after`, or the value differs from the row's `after`; `after` and the unknown flag are kept |
| `ChangeCore.ChangeMapOf` | src/components/Terraform/Change.tsx:205-250 | the three nested reduces give one row for each key of `before`, `after` and `after_unknown`, a null map counting as empty, and no other row |
| `ChangeCore.Changes` | src/components/Terraform/Change.tsx:252-254 | `changes` holds, unaltered, exactly the rows whose `changed` is true |
| `ChangeCore.OverlayAt` | src/components/Terraform/Change.tsx:205-250 | one reduce pass over a map with distinct keys: each of its keys gets the callback applied to its previous row (if any) and its value; every other row is kept; no other key appears |
| `ChangeCore.ChangeMapAt` | src/components/Terraform/Change.tsx:205-250 | for every key, the change map holds a row exactly when some map has the key, and that row is the one described key by key by `RowFor` (address, changed, unknown flag, before, after) |
| `ChangeCore.ChangeMapKeys` | src/components/Terraform/Change.tsx:205-250 | the change map's keys are exactly the union of the keys of `before`, `after` and `after_unknown`, a null map counting as empty, and each row's address is its key |
| `ChangeCore.BeforeOnlyIsChanged` | src/components/Change.tsx:149-164 | a key only in `before` is in `changes`, carrying its `before` value |
| `ChangeCore.BeforeAndAfterCompared` | src/components/Terraform/Change.tsx:208-233 | a key in both `before` and `after` has `changed` = findChange(before value, after value), so it is in `changes` exactly when the two values differ |
| `ChangeCore.AbsentFromBeforeIsHidden` | src/components/Terraform/Change.tsx:221-254 | a key absent from `before` is never in `changes`; with `after` its row keeps `changed: false`; with only `after_unknown` its `changed` is unset |
| `ChangeCore.PassesKeepEarlierFields` | src/components/Terraform/Change.tsx:211-243 | the unknown flag is set exactly for keys of `after_unknown`, and it is true exactly when the value is literally `true`; later passes keep it; `after` comes from `after` or is null for unknown-only keys; `before` comes from `before`, or is null for unknown keys, or is unset |
| `ChangeCore.ChangesExactly` | src/components/Change.tsx:149-198 | a key is in `changes` if and only if it is in `before` and either no other map has it or findChange tells its value from the row's `after` (null when only `after_unknown` has the key) |
| `ChangeCore.EmptyChangeHasNoRows` | src/components/Terraform/Change.tsx:205-250 | when all three maps are empty or null, the change map is empty |
| `ChangeCore.UpdateScenario` | src/components/Terraform/Change.tsx:205-254 | before {a:1,b:2} and after {a:1,b:3} leave only `b` in `changes`, with before 2 and after 3 |
| `ChangeCore.UnknownOnlyScenario` | src/components/Change.tsx:178-198 | after_unknown {x:true} alone gives one row `x` with the unknown flag true, and `changes` is empty |
| `ChangeCore.NormalisedAddress` | src/components/Change.tsx:91 | every `_` becomes a space; every other character stays in place; the length is kept; no `_` remains |
| `ChangeCore.ColorOf` | src/components/Terraform/Change.tsx:17-38 | a single `no-op`, `update` or `delete` is exactly what gives `secondary`, `warning` or `danger`; any other single action gives `info`; every list that is not a single action gives `info` |
| `ChangeCore.IntendedColorDiffers` | src/components/Terraform/Change.tsx:33-35 | the element-wise classifier differs from the viewer's exactly on `["create","delete"]` and `["delete","create"]`, so the identity test on those two tuples is dead |
| `ChangeCore.ActionArray.constructor` | src/components/Terraform/Change.tsx:256 | `[...actions]` makes a fresh array with the same items |
| `ChangeCore.ActionArray.Shift` | src/components/Terraform/Change.tsx:19 | `shift()` removes and returns the first item, or returns `undefined` and leaves an empty array unchanged |
| `ChangeCore.GetChangeColor` | src/components/Change.tsx:17-38 | getChangeColor returns `ColorOf` of its argument and empties a one-action argument, leaving any other argument unchanged |
| `TerraformChange.HeaderLabel` | src/components/Terraform/Change.tsx:40-121 | every list that is not a single action is labelled "Unknown"; a single action the header does not know is shown as itself |
| `TerraformChange.SingleActionLabels` | src/components/Terraform/Change.tsx:44-86 | the five single actions are labelled "No change", "Update in place", "Delete", "Create" and "Read" |
| `TerraformChange.GetChangeHeader` | src/components/Terraform/Change.tsx:40-121 | getChangeHeader returns `HeaderLabel` of its argument (its two-action branches being dead) and empties a one-action argument |
| `TerraformChange.IntendedHeaderDiffers` | src/components/Terraform/Change.tsx:92-118 | the element-wise header differs from the viewer's exactly on the two replacement tuples |
| `TerraformChange.CardClassification` | src/components/Terraform/Change.tsx:256-262 | the card's colour and header are `ColorOf` and `HeaderLabel` of the whole action list, and the resource change's own array is left unchanged |
| `LegacyChange.ChangeLabel` | src/components/Change.tsx:40-65 | every list that is not a single action is "Unknown"; any single action other than `no-op`, `update` and `delete` is returned as is |
| `LegacyChange.ReplacementTuplesAreUnknown` | src/components/Change.tsx:40-64 | `["create","delete"]` and `["delete","create"]` are labelled "Unknown"; `["create"]` is labelled "create"; `["no-op"]`, `["update"]` and `["delete"]` are labelled "No change", "Update in place" and "Delete" |
| `LegacyChange.GetChangeLabel` | src/components/Change.tsx:40-65 | getChangeLabel returns `ChangeLabel` of its argument and empties a one-action argument |
| `LegacyChange.HeaderAndLabelDiffer` | src/components/Change.tsx:40-54 | getChangeHeader's label and getChangeLabel differ exactly on `["create"]` and `["read"]` |
| `LegacyChange.CardClassification` | src/components/Change.tsx:200-206 | the card's colour and label are `ColorOf` and `ChangeLabel` of the whole action list, and the resource change's own array is left unchanged |
| `TerraformPlan.RemoveAll` | src/components/Terraform/Plan.tsx:32 | filtering out an action keeps the other actions in order and with their counts, and removes every occurrence of that action |
| `TerraformPlan.ToggleAction` | src/components/Terraform/Plan.tsx:31-33 | the toggled list holds the action exactly when the old list did not, and holds every other action exactly when the old list did |
| `TerraformPlan.ToggleActionMeaning` | src/components/Terraform/Plan.tsx:30-39 | toggling a present action removes all its occurrences, keeps the others in order and membership unchanged; toggling an absent action appends it at the end |
| `TerraformPlan.ToggleTwice` | src/components/Terraform/Plan.tsx:30-39 | toggling an absent action twice restores the list exactly; toggling a present action twice gives the other actions in order followed by that action |
| `TerraformPlan.WithActionToggled` | src/components/Terraform/Plan.tsx:30-39 | toggling flips whether the action is selected, leaves the selection of every other action unchanged, and keeps `address` and `type` |
| `TerraformPlan.WithAddress` | src/components/Terraform/Plan.tsx:41-46 | the address change replaces `address` and keeps `actions` and `type` |
| `TerraformPlan.LowerAscii` | src/components/Terraform/Plan.tsx:52 | lowercasing keeps the length and lowercases each character on its own |
| `TerraformPlan.AddressMatches` | src/components/Terraform/Plan.tsx:51-53 | an empty query passes every change; a non-empty query passes only an address at least as long as the query |
| `TerraformPlan.ActionsMatch` | src/components/Terraform/Plan.tsx:55-60 | the operation control passes exactly when some selected action is among the change's actions, so never with no action selected or an empty tuple |
| `TerraformPlan.Shown` | src/components/Terraform/Plan.tsx:49-63 | a shown change has a selected action and a non-empty tuple; with an empty query, whether a change is shown depends on the operation control alone |
| `TerraformPlan.FilterChanges` | src/components/Terraform/Plan.tsx:48-64 | the shown changes are an order-preserving subsequence of the plan's; they hold every change that passes both the address and the action predicate, each as often as the plan lists it, and no other change |
| `TerraformPlan.FilterKeepsPassing` | src/components/Terraform/Plan.tsx:61-63 | a list whose every change passes both predicates is left unchanged by the filter |
| `TerraformPlan.FilterIdempotent` | src/components/Terraform/Plan.tsx:48-64 | filtering the output again with the same filter returns it unchanged |
| `TerraformPlan.NoActionsShowNothing` | src/components/Terraform/Plan.tsx:55-60 | with no action selected the result is empty |
| `TerraformPlan.DefaultShowsAllButNoOp` | src/components/Terraform/Plan.tsx:25-28 | under the default filter a well-formed change is shown exactly when its action tuple is not `["no-op"]` |
| `TerraformPlan.LowercaseQuerySearchedAsTyped` | src/components/Terraform/Plan.tsx:51-53 | a query with no upper-case letter is searched for in the address as typed, and an empty query passes |
| `TerraformPlan.QueryCaseFoldedAddressNot` | src/components/Terraform/Plan.tsx:52 | the query "DB" does not find the address "DB": the query is lowercased but the address is not |
| `TerraformPlan.PlanView.constructor` | src/components/Terraform/Plan.tsx:25-28 | the view starts with the default filter `DefaultFilter`: actions `update`, `delete`, `create`, `read`, and an empty address |
| `TerraformPlan.PlanView.ToggleActionFilter` | src/components/Terraform/Plan.tsx:30-39 | the filter state becomes the toggled filter |
| `TerraformPlan.PlanView.HandleAddressFilterChange` | src/components/Terraform/Plan.tsx:41-46 | the filter state becomes the old filter with the new address |
| `LegacyPlan.WithActionToggled` | src/components/Plan.tsx:61-70 | toggling removes every occurrence of a present action and keeps the rest in order and with their counts; it appends an absent action; it keeps every other action's selection and `type` |
| `LegacyPlan.DefaultSelectsAllButNoOp` | src/components/Plan.tsx:57-59 | the default filter selects `update`, `delete`, `create` and `read`, and not `no-op` |
| `LegacyPlan.ToggleTwice` | src/components/Plan.tsx:61-70 | toggling an absent action twice restores the filter exactly; toggling a present action twice selects it again at the end of the list, so the filter differs unless the action was already last |
| `Theme.MergeStep` | src/theme.tsx:12-21 | the reducer is undefined only when both sides are; a defined style adds its keys to the accumulated ones and its values win; a key it does not set keeps the accumulated value |
| `Theme.Reduce` | src/theme.tsx:12-21 | the reduce is undefined exactly when its seed and every later style are undefined, and it never loses a key of a defined seed |
| `Theme.Merge` | src/theme.tsx:11-22 | merge needs at least one argument (reducing none throws) and returns a single argument unchanged |
| `Theme.LastSetting` | src/theme.tsx:17-20 | the reference for "later wins": the value of the last style that sets the key, and none when no style sets it |
| `Theme.MergeMeaning` | src/theme.tsx:11-22 | merge is undefined exactly when every argument is; otherwise it holds the keys of all defined styles, each with the value of the last style that sets it |
| `Theme.AllUndefinedMergeUndefined` | src/theme.tsx:13-15 | merging only undefined styles gives undefined |
| `Theme.LaterStyleWins` | src/theme.tsx:17-20 | a key set by the last style takes that style's value |
| `Theme.Apply` | src/theme.tsx:24-26 | apply returns the styles when they are defined, and otherwise the fallback, which defaults to the empty map |

## Left out

- Rendering: all JSX and SVG markup, `ChangeRow`'s layout and its "Known after apply" cell, the `showDetails` state and `Collapse`. These are presentation only.
- src/components/Main.tsx and src/App.tsx: `fetch`, `FileReader`, the drop zone, URL query parsing, `JSON.parse`, `localStorage`, `matchMedia` and DOM style changes. These are I/O.
- src/components/Module.tsx, src/components/Terraform/Module.tsx and src/components/Resource.tsx: they only render. The module tree is modelled only as the `RootModule` and `ChildModule` datatypes.
- `JSON.stringify` and `formatValue` are not modelled. findChange's serialised comparison is taken as structural inequality, as described above.
- JSON numbers are IEEE doubles in the source and integers in the model.
- ChangeCore.FindChange: is exact only under the serialisation assumption above, and only for values that JSON.parse can produce. `undefined`, functions and NaN do not occur in those values. Nested objects must hold their entries in property order: built in document order, `{"b":1,"1":2}` and `{"1":2,"b":1}` would count as changed, while the source serialises both with `"1"` first and finds no change.
- `toLowerCase` is modelled only on ASCII letters (`TerraformPlan.LowerAscii`). Unicode case mapping is library behaviour.
- Strings are sequences of Dafny characters. UTF-16 code units and the `/u` flag of `normalisedAddress`'s pattern make no difference for `_`.
- Object key iteration order is not modelled for the attribute maps. `Object.entries` puts integer-like keys first. The fold accepts the entries in any order, and every result about the change map is stated key by key. Inside attribute values, key order matters to `ChangeCore.FindChange`, as described above. `changes` is modelled as a map from attribute name to row, not as a list in `Object.values` order.
- Spread key order in `merge`'s result, and non-string CSS values (React allows numbers), are not modelled.
- The `type` filter field is carried through but never read by the source, so it has no effect.
- src/components/Plan.tsx passes its filter to a Change component that ignores it. That view never filters, so nothing more is modelled for it.
- The `base`, `light` and `dark` theme constants are data only.
